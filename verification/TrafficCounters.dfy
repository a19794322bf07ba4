/**
  Turning cumulative kernel counters into stored deltas.

  A counter restarts at zero whenever the kernel rebuilds what it counts. A worker keeps the last reading
  of every key; a reading below the last one is a restart, not negative traffic.
*/
module TrafficCounters {
  import opened Option

  // ----- machine integers -----

  const TWO_63 := 0x8000_0000_0000_0000
  const TWO_64 := 0x1_0000_0000_0000_0000

  type Uint64 = n: nat | n < TWO_64
  type Int64 = n: int | -TWO_63 <= n < TWO_63

  function ToInt64(n: Uint64): Int64 { if n < TWO_63 then n else n - TWO_64 }

  function ToUint64(n: Int64): Uint64 { if n >= 0 then n else n + TWO_64 }

  function Delta(prev: Uint64, cur: Uint64): Int64 {
    if cur >= prev then ToInt64(cur - prev) else 0
  }

  /** A delta is the non-negative difference exactly when the counter did not jump by 2^63 or more at once. */
  lemma DeltaIsExact(prev: Uint64, cur: Uint64)
    ensures Delta(prev, cur) >= 0 <==> cur < prev || cur - prev < TWO_63
    ensures Delta(prev, cur) >= 0 ==> Delta(prev, cur) == if cur >= prev then cur - prev else 0
  {
  }

  /** The peer counters come as signed 64-bit numbers, so a well-formed reading never makes such a jump. */
  lemma PeerDeltasAreNonNegative(prev: Int64, cur: Int64)
    requires prev >= 0 && cur >= 0
    ensures Delta(ToUint64(prev), ToUint64(cur)) >= 0
  {
  }

  // ----- the traffic worker -----

  datatype PeerKey = PeerKey(server: string, publicKey: string)
  datatype Values = Values(rx: Uint64, tx: Uint64)
  datatype Sample = Sample(rx: Int64, tx: Int64)
  datatype Stat = Stat(publicKey: string, receive: Int64, transmit: Int64)

  /** A server and what its helper reported; nothing when the interface is missing or the helper is offline. */
  datatype Server = Server(id: string, stats: Option<seq<Stat>>)

  function ReadStats(server: string, stats: seq<Stat>): map<PeerKey, Values> {
    if stats == [] then map[]
    else
      var last := stats[|stats| - 1];
      ReadStats(server, stats[..|stats| - 1])
        [PeerKey(server, last.publicKey) := Values(ToUint64(last.receive), ToUint64(last.transmit))]
  }

  function Read(servers: seq<Server>): map<PeerKey, Values> {
    if servers == [] then map[]
    else
      var last := servers[|servers| - 1];
      Read(servers[..|servers| - 1]) + (if last.stats.Some? then ReadStats(last.id, last.stats.value) else map[])
  }

  function Polled(servers: seq<Server>): set<string> {
    set s | s in servers && s.stats.Some? :: s.id
  }

  /** Server identifiers are unique, and an interface lists a public key once. */
  ghost predicate Distinct(servers: seq<Server>) {
    && (forall i, j | 0 <= i < j < |servers| :: servers[i].id != servers[j].id)
    && (forall s | s in servers && s.stats.Some? :: DistinctStats(s.stats.value))
  }

  ghost predicate DistinctStats(stats: seq<Stat>) {
    forall i, j | 0 <= i < j < |stats| :: stats[i].publicKey != stats[j].publicKey
  }

  /** A key is sampled when it was read now and before; `stored` says whose row is inserted. */
  function Sampled(last: map<PeerKey, Values>, read: map<PeerKey, Values>, stored: PeerKey -> bool): map<PeerKey, Sample> {
    map key | key in read && key in last && stored(key) ::
      Sample(Delta(last[key].rx, read[key].rx), Delta(last[key].tx, read[key].tx))
  }

  function Remembered(last: map<PeerKey, Values>, read: map<PeerKey, Values>, polled: set<string>): map<PeerKey, Values> {
    map key | key in last.Keys + read.Keys && (key in read || key.server !in polled) ::
      if key in read then read[key] else last[key]
  }

  lemma OneMoreReading(last: map<PeerKey, Values>, read: map<PeerKey, Values>, stored: PeerKey -> bool, key: PeerKey, v: Values)
    requires key !in read
    ensures last + read[key := v] == (last + read)[key := v]
    ensures key in last + read <==> key in last
    ensures key in last ==> (last + read)[key] == last[key]
    ensures Sampled(last, read[key := v], stored) ==
              if key in last && stored(key)
              then Sampled(last, read, stored)[key := Sample(Delta(last[key].rx, v.rx), Delta(last[key].tx, v.tx))]
              else Sampled(last, read, stored)
  {
  }

  lemma OneMoreServer(last: map<PeerKey, Values>, read: map<PeerKey, Values>, more: map<PeerKey, Values>, stored: PeerKey -> bool)
    requires read.Keys !! more.Keys
    ensures last + (read + more) == last + read + more
    ensures Sampled(last, read + more, stored) == Sampled(last, read, stored) + Sampled(last + read, more, stored)
  {
    assert forall key | key in more :: key in last + read <==> key in last;
  }

  lemma {:induction false} StatsKeys(server: string, stats: seq<Stat>, key: PeerKey)
    ensures key in ReadStats(server, stats) <==> key.server == server && exists i | 0 <= i < |stats| :: stats[i].publicKey == key.publicKey
  {
    if stats != [] {
      StatsKeys(server, stats[..|stats| - 1], key);
    }
  }

  lemma {:induction false} ReadKeys(servers: seq<Server>, key: PeerKey)
    requires key in Read(servers)
    ensures exists i | 0 <= i < |servers| :: servers[i].id == key.server
  {
    var last := servers[|servers| - 1];
    if last.stats.Some? && key in ReadStats(last.id, last.stats.value) {
      StatsKeys(last.id, last.stats.value, key);
      assert servers[|servers| - 1].id == key.server;
    } else {
      ReadKeys(servers[..|servers| - 1], key);
    }
  }

  lemma NewServerNewKeys(servers: seq<Server>, n: nat)
    requires Distinct(servers) && n < |servers| && servers[n].stats.Some?
    ensures Read(servers[..n]).Keys !! ReadStats(servers[n].id, servers[n].stats.value).Keys
  {
    forall key | key in Read(servers[..n]) ensures key !in ReadStats(servers[n].id, servers[n].stats.value) {
      ReadKeys(servers[..n], key);
      StatsKeys(servers[n].id, servers[n].stats.value, key);
    }
  }

  // ----- what is read -----

  /** The reading is the signed counters of the key's peer. */
  predicate IsReading(stat: Stat, key: PeerKey, v: Values) {
    stat.publicKey == key.publicKey && ToInt64(v.rx) == stat.receive && ToInt64(v.tx) == stat.transmit
  }

  ghost predicate Reads(stats: seq<Stat>, key: PeerKey, v: Values) {
    exists j | 0 <= j < |stats| :: IsReading(stats[j], key, v)
  }

  lemma {:induction false} StatsExactly(server: string, stats: seq<Stat>, key: PeerKey, v: Values)
    requires DistinctStats(stats)
    ensures key in ReadStats(server, stats) && ReadStats(server, stats)[key] == v <==>
              key.server == server && Reads(stats, key, v)
  {
    if stats != [] {
      var n := |stats| - 1;
      StatsExactly(server, stats[..n], key, v);
      if j :| 0 <= j < |stats| && IsReading(stats[j], key, v) {
        assert j < n ==> stats[..n][j] == stats[j];
      }
      if key == PeerKey(server, stats[n].publicKey) {
        assert ReadStats(server, stats)[key] == v <==> IsReading(stats[n], key, v);
      } else if j :| 0 <= j < n && IsReading(stats[..n][j], key, v) {
        assert IsReading(stats[j], key, v);
      }
    }
  }

  /** Some server that answered reports these counters for the key. */
  ghost predicate Reported(servers: seq<Server>, key: PeerKey, v: Values) {
    exists i | 0 <= i < |servers| :: ReportedBy(servers[i], key, v)
  }

  ghost predicate ReportedBy(server: Server, key: PeerKey, v: Values) {
    server.id == key.server && server.stats.Some? && Reads(server.stats.value, key, v)
  }

  lemma OneMoreReports(servers: seq<Server>, n: nat, key: PeerKey, v: Values)
    requires n < |servers|
    ensures Reported(servers[..n + 1], key, v) <==> Reported(servers[..n], key, v) || ReportedBy(servers[n], key, v)
  {
    var before, more := servers[..n], servers[..n + 1];
    assert more == before + [servers[n]];
    if ReportedBy(servers[n], key, v) { assert ReportedBy(more[n], key, v); }
    if i :| 0 <= i < |before| && ReportedBy(before[i], key, v) { assert ReportedBy(more[i], key, v); }
    if i :| 0 <= i < |more| && ReportedBy(more[i], key, v) {
      assert i < n ==> ReportedBy(before[i], key, v);
    }
  }

  /** A poll reads for a key exactly the receive and transmit counters that its own server reports for its peer. */
  lemma {:induction false} ReadExactly(servers: seq<Server>, n: nat, key: PeerKey, v: Values)
    requires Distinct(servers) && n <= |servers|
    ensures key in Read(servers[..n]) && Read(servers[..n])[key] == v <==> Reported(servers[..n], key, v)
    decreases n
  {
    if n > 0 {
      ReadExactly(servers, n - 1, key, v);
      OneMoreReports(servers, n - 1, key, v);
      ReadOneMore(map[], servers, n - 1, _ => true);
      var last := servers[n - 1];
      if last.stats.Some? {
        StatsExactly(last.id, last.stats.value, key, v);
        NewServerNewKeys(servers, n - 1);
      }
    }
  }

  lemma ReadOneMore(last: map<PeerKey, Values>, servers: seq<Server>, n: nat, stored: PeerKey -> bool)
    requires Distinct(servers) && n < |servers|
    ensures servers[n].stats.None? ==>
              Polled(servers[..n + 1]) == Polled(servers[..n]) && Read(servers[..n + 1]) == Read(servers[..n])
    ensures servers[n].stats.Some? ==>
              var read, more := Read(servers[..n]), ReadStats(servers[n].id, servers[n].stats.value);
              && Polled(servers[..n + 1]) == Polled(servers[..n]) + {servers[n].id}
              && Read(servers[..n + 1]) == read + more
              && last + Read(servers[..n + 1]) == last + read + more
              && Sampled(last, Read(servers[..n + 1]), stored) == Sampled(last, read, stored) + Sampled(last + read, more, stored)
  {
    assert servers[..n + 1] == servers[..n] + [servers[n]];
    assert servers[..n + 1][..n] == servers[..n];
    if servers[n].stats.Some? {
      NewServerNewKeys(servers, n);
      OneMoreServer(last, Read(servers[..n]), ReadStats(servers[n].id, servers[n].stats.value), stored);
    }
  }

  lemma PruningRemembers(last: map<PeerKey, Values>, servers: seq<Server>)
    ensures Remembered(last, Read(servers), Polled(servers)) ==
              map key | key in last + Read(servers) && !(key.server in Polled(servers) && key !in Read(servers).Keys) ::
                (last + Read(servers))[key]
  {
  }

  class TrafficWorker {
    var lastValues: map<PeerKey, Values>

    constructor ()
      ensures lastValues == map[]
    {
      lastValues := map[];
    }

    method PollTraffic(servers: seq<Server>, stored: PeerKey -> bool) returns (samples: map<PeerKey, Sample>)
      requires Distinct(servers)
      modifies this
      ensures samples == Sampled(old(lastValues), Read(servers), stored)
      ensures lastValues == Remembered(old(lastValues), Read(servers), Polled(servers))
    {
      samples := map[];
      var polled: set<string>, reported: set<PeerKey> := {}, {};
      for n := 0 to |servers|
        invariant polled == Polled(servers[..n]) && reported == Read(servers[..n]).Keys
        invariant lastValues == old(lastValues) + Read(servers[..n])
        invariant samples == Sampled(old(lastValues), Read(servers[..n]), stored)
      {
        ReadOneMore(old(lastValues), servers, n, stored);
        if servers[n].stats.None? {
          continue;
        }
        polled := polled + {servers[n].id};
        var more;
        more, reported := PollServer(servers[n].id, servers[n].stats.value, reported, stored);
        samples := samples + more;
      }
      assert servers[..|servers|] == servers;
      PruningRemembers(old(lastValues), servers);
      Prune(polled, reported);
    }

    method PollServer(server: string, stats: seq<Stat>, before: set<PeerKey>, stored: PeerKey -> bool)
      returns (samples: map<PeerKey, Sample>, reported: set<PeerKey>)
      requires DistinctStats(stats)
      modifies this
      ensures samples == Sampled(old(lastValues), ReadStats(server, stats), stored)
      ensures reported == before + ReadStats(server, stats).Keys
      ensures lastValues == old(lastValues) + ReadStats(server, stats)
    {
      samples, reported := map[], before;
      for k := 0 to |stats|
        invariant samples == Sampled(old(lastValues), ReadStats(server, stats[..k]), stored)
        invariant reported == before + ReadStats(server, stats[..k]).Keys
        invariant lastValues == old(lastValues) + ReadStats(server, stats[..k])
      {
        assert stats[..k + 1][..k] == stats[..k];
        var key := PeerKey(server, stats[k].publicKey);
        var rx, tx := ToUint64(stats[k].receive), ToUint64(stats[k].transmit);
        StatsKeys(server, stats[..k], key);
        OneMoreReading(old(lastValues), ReadStats(server, stats[..k]), stored, key, Values(rx, tx));
        reported := reported + {key};
        if key in lastValues {
          var prev := lastValues[key];
          if stored(key) {
            samples := samples[key := Sample(Delta(prev.rx, rx), Delta(prev.tx, tx))];
          }
        }
        lastValues := lastValues[key := Values(rx, tx)];
      }
      assert stats[..|stats|] == stats;
    }

    method Prune(polled: set<string>, reported: set<PeerKey>)
      modifies this
      ensures lastValues == map key | key in old(lastValues) && !(key.server in polled && key !in reported) :: old(lastValues)[key]
    {
      var todo := lastValues.Keys;
      while todo != {}
        invariant todo <= lastValues.Keys <= old(lastValues).Keys
        invariant forall key | key in lastValues :: lastValues[key] == old(lastValues)[key]
        invariant forall key | key in old(lastValues) && key !in todo ::
                    key in lastValues <==> !(key.server in polled && key !in reported)
        decreases todo
      {
        var key :| key in todo;
        todo := todo - {key};
        if key.server in polled && key !in reported {
          lastValues := lastValues - {key};
        }
      }
    }
  }

  // ----- the worker for blocked packets -----

  datatype RuleKey = RuleKey(server: string, family: string, source: string, cidr: string)
  datatype Hits = Hits(packets: Uint64, bytes: Uint64)
  datatype HitRow = HitRow(packets: Int64, bytes: Int64)
  datatype Counter = Counter(key: RuleKey, hits: Hits)

  function ReadCounters(counters: seq<Counter>): map<RuleKey, Hits> {
    if counters == [] then map[]
    else ReadCounters(counters[..|counters| - 1])[counters[|counters| - 1].key := counters[|counters| - 1].hits]
  }

  ghost predicate DistinctCounters(counters: seq<Counter>) {
    forall i, j | 0 <= i < j < |counters| :: counters[i].key != counters[j].key
  }

  /** The row a reading stores: none for a first sight, a restart of the packet counter, or no change. */
  function HitRowFor(prev: Hits, cur: Hits): Option<HitRow> {
    if cur.packets < prev.packets then None
    else if cur.packets == prev.packets && cur.bytes <= prev.bytes then None
    else Some(HitRow(ToInt64(cur.packets - prev.packets), Delta(prev.bytes, cur.bytes)))
  }

  function HitRows(last: map<RuleKey, Hits>, read: map<RuleKey, Hits>, stored: RuleKey -> bool): map<RuleKey, HitRow> {
    map key | key in read && key in last && stored(key) && HitRowFor(last[key], read[key]).Some? ::
      HitRowFor(last[key], read[key]).value
  }

  lemma OneMoreCounter(last: map<RuleKey, Hits>, read: map<RuleKey, Hits>, stored: RuleKey -> bool, key: RuleKey, cur: Hits)
    requires key !in read
    ensures last + read[key := cur] == (last + read)[key := cur]
    ensures key in last + read <==> key in last
    ensures key in last ==> (last + read)[key] == last[key]
    ensures HitRows(last, read[key := cur], stored) ==
              if key in last && stored(key) && HitRowFor(last[key], cur).Some?
              then HitRows(last, read, stored)[key := HitRowFor(last[key], cur).value]
              else HitRows(last, read, stored)
  {
  }

  lemma {:induction false} CounterKeys(counters: seq<Counter>, key: RuleKey)
    ensures key in ReadCounters(counters) <==> exists i | 0 <= i < |counters| :: counters[i].key == key
  {
    if counters != [] {
      CounterKeys(counters[..|counters| - 1], key);
    }
  }

  /** A poll reads for a rule exactly the counters listed for it. */
  lemma {:induction false} CountersExactly(counters: seq<Counter>, key: RuleKey, hits: Hits)
    requires DistinctCounters(counters)
    ensures key in ReadCounters(counters) && ReadCounters(counters)[key] == hits <==> Counter(key, hits) in counters
  {
    if counters != [] {
      var n := |counters| - 1;
      CountersExactly(counters[..n], key, hits);
      assert counters == counters[..n] + [counters[n]];
      CounterKeys(counters[..n], key);
    }
  }

  class IPBlockHitWorker {
    var last: map<RuleKey, Hits>

    constructor ()
      ensures last == map[]
    {
      last := map[];
    }

    /** `counters` are those of all servers whose helper answered; whatever they do not list is forgotten. */
    method Poll(counters: seq<Counter>, stored: RuleKey -> bool) returns (rows: map<RuleKey, HitRow>)
      requires DistinctCounters(counters)
      modifies this
      ensures rows == HitRows(old(last), ReadCounters(counters), stored)
      ensures last == ReadCounters(counters)
    {
      rows := map[];
      var seen: set<RuleKey> := {};
      for k := 0 to |counters|
        invariant seen == ReadCounters(counters[..k]).Keys
        invariant last == old(last) + ReadCounters(counters[..k])
        invariant rows == HitRows(old(last), ReadCounters(counters[..k]), stored)
      {
        assert counters[..k + 1][..k] == counters[..k];
        var key, cur := counters[k].key, counters[k].hits;
        CounterKeys(counters[..k], key);
        OneMoreCounter(old(last), ReadCounters(counters[..k]), stored, key, cur);
        seen := seen + {key};
        rows := Count(key, cur, stored, rows);
      }
      assert counters[..|counters|] == counters;
      Forget(seen);
    }

    /** One reading: it is remembered, and its difference to the one before it becomes a row. */
    method Count(key: RuleKey, cur: Hits, stored: RuleKey -> bool, before: map<RuleKey, HitRow>)
      returns (rows: map<RuleKey, HitRow>)
      modifies this
      ensures last == old(last)[key := cur]
      ensures rows == if key in old(last) && stored(key) && HitRowFor(old(last)[key], cur).Some?
                      then before[key := HitRowFor(old(last)[key], cur).value]
                      else before
    {
      rows := before;
      var known := key in last;
      var prev := if known then last[key] else cur;
      last := last[key := cur];
      if !known || cur.packets < prev.packets {
        return;
      }
      var packets := cur.packets - prev.packets;
      var bytes := if cur.bytes >= prev.bytes then cur.bytes - prev.bytes else 0;
      if packets == 0 && bytes == 0 {
        return;
      }
      if stored(key) {
        rows := rows[key := HitRow(ToInt64(packets), ToInt64(bytes))];
      }
    }

    method Forget(seen: set<RuleKey>)
      modifies this
      ensures last == map key | key in old(last) && key in seen :: old(last)[key]
    {
      var todo := last.Keys;
      while todo != {}
        invariant todo <= last.Keys <= old(last).Keys
        invariant forall key | key in last :: last[key] == old(last)[key]
        invariant forall key | key in old(last) && key !in todo :: key in last <==> key in seen
        decreases todo
      {
        var key :| key in todo;
        todo := todo - {key};
        if key !in seen {
          last := last - {key};
        }
      }
    }
  }

  // ----- accounting, one counter at a time -----

  /**
    What happens to one counter: traffic, a restart, a reading (whose row may fail to be stored), or the worker
    forgetting the key.
  */
  datatype Event = Transfer(bytes: nat) | Restart | Reading(stored: bool) | Forgotten

  /**
    `total` is the traffic since the beginning of time and `counter` the kernel's number; `first` is the total at
    the first reading ever; `last` is what the worker remembers, and `sum` adds up the stored deltas.
  */
  datatype Account = Account(total: nat, counter: nat, first: Option<nat>, last: Option<nat>, sum: int)

  const OPENED := Account(0, 0, None, None, 0)

  /** A counter that is about to leave the signed 64-bit range stays where it is. */
  function Happen(a: Account, e: Event): Account
    requires a.counter < TWO_63 && (a.last.Some? ==> a.last.value < TWO_63)
  {
    match e
    case Transfer(bytes) =>
      if a.counter + bytes < TWO_63 then a.(total := a.total + bytes, counter := a.counter + bytes) else a
    case Restart => a.(counter := 0)
    case Reading(stored) =>
      a.(first := if a.first.None? then Some(a.total) else a.first,
         last := Some(a.counter),
         sum := if a.last.Some? && stored then a.sum + Delta(a.last.value, a.counter) else a.sum)
    case Forgotten => a.(last := None)
  }

  ghost predicate Sound(a: Account) {
    && a.counter < TWO_63 && (a.last.Some? ==> a.last.value < TWO_63 && a.first.Some?)
    && a.sum >= 0
    && (a.first.None? ==> a.sum == 0)
    && (a.first.Some? ==> a.first.value <= a.total && a.sum <= a.total - a.first.value)
    && (a.last.Some? && a.counter >= a.last.value ==>
          a.sum + (a.counter - a.last.value) <= a.total - a.first.value)
  }

  function Run(events: seq<Event>): (a: Account)
    ensures Sound(a)
  {
    if events == [] then OPENED else Happen(Run(events[..|events| - 1]), events[|events| - 1])
  }

  /** Stored deltas never add up to more than what was really transferred since the first reading. */
  lemma NeverOvercounts(events: seq<Event>)
    ensures var a := Run(events);
            0 <= a.sum && (if a.first.Some? then a.sum <= a.total - a.first.value else a.sum == 0)
  {
    assert Sound(Run(events));
  }

  /** A counter that is remembered is neither restarted nor forgotten, and its row is stored. */
  predicate Harmless(a: Account, e: Event) {
    a.last.Some? ==> !e.Restart? && !e.Forgotten? && e != Reading(false)
  }

  ghost predicate Smooth(events: seq<Event>) {
    events == [] ||
    (Smooth(events[..|events| - 1]) && Harmless(Run(events[..|events| - 1]), events[|events| - 1]))
  }

  /** Nothing is lost either: without restarts, lost rows and forgotten keys since the first reading the sum is exact. */
  lemma {:induction false} ExactWithoutRestarts(events: seq<Event>)
    requires Smooth(events)
    ensures var a := Run(events);
            && (a.first.Some? <==> a.last.Some?)
            && (a.last.Some? ==>
                  a.last.value <= a.counter && a.sum + (a.counter - a.last.value) == a.total - a.first.value)
    ensures events != [] && events[|events| - 1].Reading? ==>
              var a := Run(events); a.first.Some? && a.sum == a.total - a.first.value
  {
    if events != [] {
      ExactWithoutRestarts(events[..|events| - 1]);
      assert Sound(Run(events[..|events| - 1]));
    }
  }

  datatype Direction = Receive | Transmit

  function In(v: Values, d: Direction): Uint64 { if d.Receive? then v.rx else v.tx }

  function DeltaIn(s: Sample, d: Direction): Int64 { if d.Receive? then s.rx else s.tx }

  /** What a poll of the traffic worker does to one direction of one key is one reading, a forgotten key, or nothing. */
  lemma PollIsOneEvent(last: map<PeerKey, Values>, servers: seq<Server>, stored: PeerKey -> bool, key: PeerKey, d: Direction, a: Account)
    requires Sound(a) && a.last == (if key in last then Some(In(last[key], d)) else None)
    requires key in Read(servers) ==> In(Read(servers)[key], d) == a.counter
    ensures var read := Read(servers);
            var after := Remembered(last, read, Polled(servers));
            var samples := Sampled(last, read, stored);
            var a' := if key in read then Happen(a, Reading(stored(key)))
                      else if key.server in Polled(servers) then Happen(a, Forgotten)
                      else a;
            && a'.last == (if key in after then Some(In(after[key], d)) else None)
            && a'.sum == a.sum + (if key in samples then DeltaIn(samples[key], d) else 0)
  {
  }

  /** What a poll of the hit worker does to one packet counter is one reading or a forgotten key. */
  lemma HitPollIsOneEvent(last: map<RuleKey, Hits>, read: map<RuleKey, Hits>, stored: RuleKey -> bool, key: RuleKey, a: Account)
    requires Sound(a) && a.last == (if key in last then Some(last[key].packets) else None)
    requires key in read ==> read[key].packets == a.counter
    ensures var rows := HitRows(last, read, stored);
            var a' := if key in read then Happen(a, Reading(stored(key))) else Happen(a, Forgotten);
            && a'.last == (if key in read then Some(read[key].packets) else None)
            && a'.sum == a.sum + (if key in rows then rows[key].packets else 0)
  {
  }

  /** And the same for its byte counter, whose row is also dropped when the packet counter restarted. */
  lemma HitBytesPollIsOneEvent(last: map<RuleKey, Hits>, read: map<RuleKey, Hits>, stored: RuleKey -> bool, key: RuleKey, a: Account)
    requires Sound(a) && a.last == (if key in last then Some(last[key].bytes) else None)
    requires key in read ==> read[key].bytes == a.counter
    ensures var rows := HitRows(last, read, stored);
            var kept := stored(key) && !(key in read && key in last && read[key].packets < last[key].packets);
            var a' := if key in read then Happen(a, Reading(kept)) else Happen(a, Forgotten);
            && a'.last == (if key in read then Some(read[key].bytes) else None)
            && a'.sum == a.sum + (if key in rows then rows[key].bytes else 0)
  {
  }

  // ----- runs of polls -----

  /** What the kernel does to the counter of one direction of one key, or a poll of the worker. */
  datatype Step = Kernel(event: Event) | Poll(servers: seq<Server>, stored: PeerKey -> bool)

  /** What the worker remembers after a run, and the sum of the rows stored for one direction of one key. */
  datatype Books = Books(last: map<PeerKey, Values>, sum: int)

  function BooksAfter(steps: seq<Step>, key: PeerKey, d: Direction): Books {
    if |steps| == 0 then Books(map[], 0)
    else
      var before := BooksAfter(steps[..|steps| - 1], key, d);
      match steps[|steps| - 1]
      case Kernel(_) => before
      case Poll(servers, stored) =>
        var samples := Sampled(before.last, Read(servers), stored);
        Books(Remembered(before.last, Read(servers), Polled(servers)),
              before.sum + if key in samples then DeltaIn(samples[key], d) else 0)
  }

  /** The run as events of one key. */
  function Trace(steps: seq<Step>, key: PeerKey): seq<Event> {
    if |steps| == 0 then []
    else
      Trace(steps[..|steps| - 1], key) +
      match steps[|steps| - 1]
      case Kernel(event) => [event]
      case Poll(servers, stored) =>
        if key in Read(servers) then [Reading(stored(key))]
        else if key.server in Polled(servers) then [Forgotten]
        else []
  }

  /** A poll that reports the key reports what the kernel counted. */
  ghost predicate IsRun(steps: seq<Step>, key: PeerKey, d: Direction) {
    |steps| == 0 ||
    (var before := steps[..|steps| - 1];
     && IsRun(before, key, d)
     && match steps[|steps| - 1]
        case Kernel(event) => event.Transfer? || event.Restart?
        case Poll(servers, _) =>
          key in Read(servers) ==> In(Read(servers)[key], d) == Run(Trace(before, key)).counter)
  }

  lemma OneMoreEvent(events: seq<Event>, event: Event)
    ensures Run(events + [event]) == Happen(Run(events), event)
  {
    assert (events + [event])[..|events|] == events;
  }

  lemma {:induction false} PollsFollowTrace(steps: seq<Step>, key: PeerKey, d: Direction)
    requires IsRun(steps, key, d)
    ensures var a, books := Run(Trace(steps, key)), BooksAfter(steps, key, d);
            a.sum == books.sum && a.last == (if key in books.last then Some(In(books.last[key], d)) else None)
  {
    if |steps| > 0 {
      var before := steps[..|steps| - 1];
      PollsFollowTrace(before, key, d);
      var events, books := Trace(before, key), BooksAfter(before, key, d);
      match steps[|steps| - 1] {
        case Kernel(event) => OneMoreEvent(events, event);
        case Poll(servers, stored) =>
          PollIsOneEvent(books.last, servers, stored, key, d, Run(events));
          OneMoreEvent(events, Reading(stored(key)));
          OneMoreEvent(events, Forgotten);
          assert events + [] == events;
      }
    }
  }

  /** Over every run of polls the rows stored for a key never add up to more than was transferred since its first sample. */
  lemma PollsNeverOvercount(steps: seq<Step>, key: PeerKey, d: Direction)
    requires IsRun(steps, key, d)
    ensures var a, sum := Run(Trace(steps, key)), BooksAfter(steps, key, d).sum;
            0 <= sum && (if a.first.Some? then sum <= a.total - a.first.value else sum == 0)
  {
    PollsFollowTrace(steps, key, d);
    NeverOvercounts(Trace(steps, key));
  }

  /** The step neither restarts the key's counter nor forgets the key nor loses its row. */
  ghost predicate Undisturbed(step: Step, key: PeerKey) {
    match step
    case Kernel(event) => event.Transfer?
    case Poll(servers, stored) => if key in Read(servers) then stored(key) else key.server !in Polled(servers)
  }

  /** From the first poll that reports the key no step disturbs it. */
  ghost predicate SmoothRun(steps: seq<Step>, key: PeerKey, d: Direction) {
    |steps| == 0 ||
    (var before := steps[..|steps| - 1];
     && SmoothRun(before, key, d)
     && (key in BooksAfter(before, key, d).last ==> Undisturbed(steps[|steps| - 1], key)))
  }

  lemma OneMoreHarmless(events: seq<Event>, event: Event)
    requires Smooth(events) && Harmless(Run(events), event)
    ensures Smooth(events + [event])
  {
    assert (events + [event])[..|events|] == events;
  }

  lemma {:induction false} SmoothTrace(steps: seq<Step>, key: PeerKey, d: Direction)
    requires IsRun(steps, key, d) && SmoothRun(steps, key, d)
    ensures Smooth(Trace(steps, key))
  {
    if |steps| > 0 {
      var before := steps[..|steps| - 1];
      SmoothTrace(before, key, d);
      PollsFollowTrace(before, key, d);
      var events := Trace(before, key);
      match steps[|steps| - 1] {
        case Kernel(event) => OneMoreHarmless(events, event);
        case Poll(servers, stored) =>
          if key in Read(servers) {
            OneMoreHarmless(events, Reading(stored(key)));
          } else if key.server in Polled(servers) {
            OneMoreHarmless(events, Forgotten);
          } else {
            assert events + [] == events;
          }
      }
    }
  }

  /** And they are exact after every poll that reports an undisturbed key, however often its server does not answer. */
  lemma PollsAreExact(steps: seq<Step>, key: PeerKey, d: Direction)
    requires IsRun(steps, key, d) && SmoothRun(steps, key, d)
    requires |steps| > 0 && steps[|steps| - 1].Poll? && key in Read(steps[|steps| - 1].servers)
    ensures var a := Run(Trace(steps, key));
            a.first.Some? && BooksAfter(steps, key, d).sum == a.total - a.first.value
  {
    PollsFollowTrace(steps, key, d);
    SmoothTrace(steps, key, d);
    ExactWithoutRestarts(Trace(steps, key));
  }

  datatype HitStep = HitKernel(event: Event) | HitPoll(counters: seq<Counter>, stored: RuleKey -> bool)

  datatype Measure = Packets | Bytes

  function Of(hits: Hits, m: Measure): Uint64 { if m.Packets? then hits.packets else hits.bytes }

  function OfRow(row: HitRow, m: Measure): Int64 { if m.Packets? then row.packets else row.bytes }

  datatype HitBooks = HitBooks(last: map<RuleKey, Hits>, sum: int)

  function HitBooksAfter(steps: seq<HitStep>, key: RuleKey, m: Measure): HitBooks {
    if |steps| == 0 then HitBooks(map[], 0)
    else
      var before := HitBooksAfter(steps[..|steps| - 1], key, m);
      match steps[|steps| - 1]
      case HitKernel(_) => before
      case HitPoll(counters, stored) =>
        var rows := HitRows(before.last, ReadCounters(counters), stored);
        HitBooks(ReadCounters(counters), before.sum + if key in rows then OfRow(rows[key], m) else 0)
  }

  /** The byte counter's row is also dropped when the packet counter restarted. */
  predicate Keeps(last: map<RuleKey, Hits>, read: map<RuleKey, Hits>, stored: RuleKey -> bool, key: RuleKey, m: Measure) {
    && stored(key)
    && (m.Bytes? && key in read && key in last ==> last[key].packets <= read[key].packets)
  }

  function HitEvent(last: map<RuleKey, Hits>, read: map<RuleKey, Hits>, stored: RuleKey -> bool, key: RuleKey, m: Measure): Event {
    if key in read then Reading(Keeps(last, read, stored, key, m)) else Forgotten
  }

  function HitTrace(steps: seq<HitStep>, key: RuleKey, m: Measure): seq<Event> {
    if |steps| == 0 then []
    else
      var before := steps[..|steps| - 1];
      HitTrace(before, key, m) +
      match steps[|steps| - 1]
      case HitKernel(event) => [event]
      case HitPoll(counters, stored) =>
        [HitEvent(HitBooksAfter(before, key, m).last, ReadCounters(counters), stored, key, m)]
  }

  ghost predicate IsHitRun(steps: seq<HitStep>, key: RuleKey, m: Measure) {
    |steps| == 0 ||
    (var before := steps[..|steps| - 1];
     && IsHitRun(before, key, m)
     && match steps[|steps| - 1]
        case HitKernel(event) => event.Transfer? || event.Restart?
        case HitPoll(counters, _) =>
          key in ReadCounters(counters) ==> Of(ReadCounters(counters)[key], m) == Run(HitTrace(before, key, m)).counter)
  }

  lemma HitPollIsItsEvent(last: map<RuleKey, Hits>, read: map<RuleKey, Hits>, stored: RuleKey -> bool, key: RuleKey, m: Measure, a: Account)
    requires Sound(a) && a.last == (if key in last then Some(Of(last[key], m)) else None)
    requires key in read ==> Of(read[key], m) == a.counter
    ensures var rows := HitRows(last, read, stored);
            var a' := Happen(a, HitEvent(last, read, stored, key, m));
            && a'.last == (if key in read then Some(Of(read[key], m)) else None)
            && a'.sum == a.sum + (if key in rows then OfRow(rows[key], m) else 0)
  {
    if m.Packets? {
      HitPollIsOneEvent(last, read, stored, key, a);
    } else {
      HitBytesPollIsOneEvent(last, read, stored, key, a);
    }
  }

  lemma {:induction false} HitPollsFollowTrace(steps: seq<HitStep>, key: RuleKey, m: Measure)
    requires IsHitRun(steps, key, m)
    ensures var a, books := Run(HitTrace(steps, key, m)), HitBooksAfter(steps, key, m);
            a.sum == books.sum && a.last == (if key in books.last then Some(Of(books.last[key], m)) else None)
  {
    if |steps| > 0 {
      var before := steps[..|steps| - 1];
      HitPollsFollowTrace(before, key, m);
      var events, last := HitTrace(before, key, m), HitBooksAfter(before, key, m).last;
      match steps[|steps| - 1] {
        case HitKernel(event) => OneMoreEvent(events, event);
        case HitPoll(counters, stored) =>
          HitPollIsItsEvent(last, ReadCounters(counters), stored, key, m, Run(events));
          OneMoreEvent(events, HitEvent(last, ReadCounters(counters), stored, key, m));
      }
    }
  }

  /** The same for the packets and the bytes a block rule stopped. */
  lemma HitPollsNeverOvercount(steps: seq<HitStep>, key: RuleKey, m: Measure)
    requires IsHitRun(steps, key, m)
    ensures var a, sum := Run(HitTrace(steps, key, m)), HitBooksAfter(steps, key, m).sum;
            0 <= sum && (if a.first.Some? then sum <= a.total - a.first.value else sum == 0)
  {
    HitPollsFollowTrace(steps, key, m);
    NeverOvercounts(HitTrace(steps, key, m));
  }

  ghost predicate HitUndisturbed(step: HitStep, last: map<RuleKey, Hits>, key: RuleKey, m: Measure) {
    match step
    case HitKernel(event) => event.Transfer?
    case HitPoll(counters, stored) =>
      var read := ReadCounters(counters);
      key in read && Keeps(last, read, stored, key, m)
  }

  ghost predicate SmoothHitRun(steps: seq<HitStep>, key: RuleKey, m: Measure) {
    |steps| == 0 ||
    (var before := steps[..|steps| - 1];
     var last := HitBooksAfter(before, key, m).last;
     SmoothHitRun(before, key, m) && (key in last ==> HitUndisturbed(steps[|steps| - 1], last, key, m)))
  }

  lemma {:induction false} SmoothHitTrace(steps: seq<HitStep>, key: RuleKey, m: Measure)
    requires IsHitRun(steps, key, m) && SmoothHitRun(steps, key, m)
    ensures Smooth(HitTrace(steps, key, m))
  {
    if |steps| > 0 {
      var before := steps[..|steps| - 1];
      SmoothHitTrace(before, key, m);
      HitPollsFollowTrace(before, key, m);
      var events, last := HitTrace(before, key, m), HitBooksAfter(before, key, m).last;
      match steps[|steps| - 1] {
        case HitKernel(event) => OneMoreHarmless(events, event);
        case HitPoll(counters, stored) =>
          OneMoreHarmless(events, HitEvent(last, ReadCounters(counters), stored, key, m));
      }
    }
  }

  lemma HitPollsAreExact(steps: seq<HitStep>, key: RuleKey, m: Measure)
    requires IsHitRun(steps, key, m) && SmoothHitRun(steps, key, m)
    requires |steps| > 0 && steps[|steps| - 1].HitPoll? && key in ReadCounters(steps[|steps| - 1].counters)
    ensures var a := Run(HitTrace(steps, key, m));
            a.first.Some? && HitBooksAfter(steps, key, m).sum == a.total - a.first.value
  {
    HitPollsFollowTrace(steps, key, m);
    SmoothHitTrace(steps, key, m);
    ExactWithoutRestarts(HitTrace(steps, key, m));
  }
}
