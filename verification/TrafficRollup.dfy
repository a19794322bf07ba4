/**
  The roll-up of traffic samples into daily rows: an upsert of the daily sums, then a delete of the
  samples that were summed. Each statement is atomic; a crash may separate them.
*/
module TrafficRollup {
  const DAY := 86_400

  type PeerId = nat

  datatype Bytes = Bytes(rx: nat, tx: nat)
  datatype Direction = Receive | Transmit
  datatype Sample = Sample(peer: PeerId, time: nat, bytes: Bytes)
  datatype DayKey = DayKey(peer: PeerId, day: nat)

  function Part(b: Bytes, d: Direction): nat { if d.Receive? then b.rx else b.tx }

  predicate InRange(s: Sample, peer: PeerId, from: int, to: int) {
    s.peer == peer && from <= s.time < to
  }

  /** The bytes of a peer's samples with `from <= time < to`. */
  function Sum(samples: seq<Sample>, peer: PeerId, from: int, to: int, d: Direction): nat {
    if samples == [] then 0
    else
      var last := samples[|samples| - 1];
      Sum(samples[..|samples| - 1], peer, from, to, d) + (if InRange(last, peer, from, to) then Part(last.bytes, d) else 0)
  }

  predicate Any(samples: seq<Sample>, peer: PeerId, from: int, to: int) {
    exists s | s in samples :: InRange(s, peer, from, to)
  }

  /** The end of the part of a day that lies before the cutoff. */
  function DayEnd(day: nat, cutoff: int): int {
    if (day + 1) * DAY < cutoff then (day + 1) * DAY else cutoff
  }

  // ----- the two statements -----

  function DaysBefore(samples: seq<Sample>, cutoff: int): set<DayKey> {
    set s | s in samples && s.time < cutoff :: DayKey(s.peer, s.time / DAY)
  }

  /** The upsert: a day with old samples gets their sum, whatever its row held before. */
  function Upserted(daily: map<DayKey, Bytes>, samples: seq<Sample>, cutoff: int): map<DayKey, Bytes> {
    map key | key in daily.Keys + DaysBefore(samples, cutoff) ::
      if key in DaysBefore(samples, cutoff) then
        Bytes(Sum(samples, key.peer, key.day * DAY, DayEnd(key.day, cutoff), Receive),
              Sum(samples, key.peer, key.day * DAY, DayEnd(key.day, cutoff), Transmit))
      else daily[key]
  }

  function Remaining(samples: seq<Sample>, cutoff: int): seq<Sample> {
    if samples == [] then []
    else
      var last := samples[|samples| - 1];
      Remaining(samples[..|samples| - 1], cutoff) + (if last.time < cutoff then [] else [last])
  }

  // ----- sums -----

  function Row(daily: map<DayKey, Bytes>, peer: PeerId, day: nat, d: Direction): nat {
    if DayKey(peer, day) in daily then Part(daily[DayKey(peer, day)], d) else 0
  }

  function DailySum(daily: map<DayKey, Bytes>, peer: PeerId, from: nat, to: nat, d: Direction): nat
    decreases to
  {
    if to <= from then 0 else DailySum(daily, peer, from, to - 1, d) + Row(daily, peer, to - 1, d)
  }

  /** All a peer is charged with: samples and daily rows, up to day `end`. */
  function Total(samples: seq<Sample>, daily: map<DayKey, Bytes>, peer: PeerId, end: nat, d: Direction): nat {
    Sum(samples, peer, 0, end * DAY, d) + DailySum(daily, peer, 0, end, d)
  }

  ghost predicate Within(samples: seq<Sample>, daily: map<DayKey, Bytes>, end: nat) {
    && (forall s | s in samples :: s.time < end * DAY)
    && (forall key | key in daily :: key.day < end)
  }

  lemma {:induction false} SumSplits(samples: seq<Sample>, peer: PeerId, from: int, mid: int, to: int, d: Direction)
    requires from <= mid <= to
    ensures Sum(samples, peer, from, to, d) == Sum(samples, peer, from, mid, d) + Sum(samples, peer, mid, to, d)
  {
    if samples != [] { SumSplits(samples[..|samples| - 1], peer, from, mid, to, d); }
  }

  lemma {:induction false} SumOfRemaining(samples: seq<Sample>, cutoff: int, peer: PeerId, from: int, to: int, d: Direction)
    ensures Sum(Remaining(samples, cutoff), peer, from, to, d) ==
              Sum(samples, peer, if from < cutoff then cutoff else from, to, d)
  {
    if samples != [] {
      var last := samples[|samples| - 1];
      var rest := Remaining(samples[..|samples| - 1], cutoff);
      SumOfRemaining(samples[..|samples| - 1], cutoff, peer, from, to, d);
      if last.time < cutoff {
        assert rest + [] == rest;
      } else {
        assert (rest + [last])[..|rest|] == rest;
      }
    }
  }

  lemma RemainingAppend(samples: seq<Sample>, s: Sample, cutoff: int)
    ensures Remaining(samples + [s], cutoff) == Remaining(samples, cutoff) + (if s.time < cutoff then [] else [s])
  {
    assert (samples + [s])[..|samples|] == samples;
  }

  lemma SumAppend(samples: seq<Sample>, s: Sample, peer: PeerId, from: int, to: int, d: Direction)
    ensures Sum(samples + [s], peer, from, to, d) ==
              Sum(samples, peer, from, to, d) + (if InRange(s, peer, from, to) then Part(s.bytes, d) else 0)
  {
    assert (samples + [s])[..|samples|] == samples;
  }

  lemma {:induction false} NothingInRange(samples: seq<Sample>, peer: PeerId, from: int, to: int, d: Direction)
    requires !Any(samples, peer, from, to)
    ensures Sum(samples, peer, from, to, d) == 0
  {
    if samples != [] {
      assert forall s | s in samples[..|samples| - 1] :: s in samples;
      NothingInRange(samples[..|samples| - 1], peer, from, to, d);
      assert samples[|samples| - 1] in samples;
    }
  }

  lemma {:induction false} RemainingAreLate(samples: seq<Sample>, cutoff: int, s: Sample)
    ensures s in Remaining(samples, cutoff) <==> s in samples && s.time >= cutoff
  {
    if samples != [] {
      RemainingAreLate(samples[..|samples| - 1], cutoff, s);
      assert samples == samples[..|samples| - 1] + [samples[|samples| - 1]];
    }
  }

  lemma DayHasSamples(samples: seq<Sample>, peer: PeerId, day: nat, cutoff: int)
    ensures DayKey(peer, day) in DaysBefore(samples, cutoff) <==> Any(samples, peer, day * DAY, DayEnd(day, cutoff))
  {
    if s :| s in samples && InRange(s, peer, day * DAY, DayEnd(day, cutoff)) {
      assert s.time / DAY == day;
    }
  }

  /** What the upsert leaves in a row. */
  lemma UpsertedRow(daily: map<DayKey, Bytes>, samples: seq<Sample>, cutoff: int, peer: PeerId, day: nat, d: Direction)
    ensures Row(Upserted(daily, samples, cutoff), peer, day, d) ==
              if Any(samples, peer, day * DAY, DayEnd(day, cutoff))
              then Sum(samples, peer, day * DAY, DayEnd(day, cutoff), d)
              else Row(daily, peer, day, d)
  {
    DayHasSamples(samples, peer, day, cutoff);
  }

  // ----- exactly when one roll-up conserves the totals -----

  /** What the rows that get overwritten held. */
  function Overwritten(daily: map<DayKey, Bytes>, samples: seq<Sample>, cutoff: int, peer: PeerId, end: nat, d: Direction): nat {
    if end == 0 then 0
    else
      Overwritten(daily, samples, cutoff, peer, end - 1, d) +
      (if Any(samples, peer, (end - 1) * DAY, DayEnd(end - 1, cutoff)) then Row(daily, peer, end - 1, d) else 0)
  }

  function Least(a: int, b: int): int { if a < b then a else b }

  lemma {:induction false} UpsertedSum(daily: map<DayKey, Bytes>, samples: seq<Sample>, cutoff: int, peer: PeerId, end: nat, d: Direction)
    requires cutoff >= 0
    ensures DailySum(Upserted(daily, samples, cutoff), peer, 0, end, d) + Overwritten(daily, samples, cutoff, peer, end, d) ==
              DailySum(daily, peer, 0, end, d) + Sum(samples, peer, 0, Least(end * DAY, cutoff), d)
  {
    if end == 0 {
      EmptyRange(samples, peer, 0, 0, d);
    } else {
      var day := end - 1;
      UpsertedSum(daily, samples, cutoff, peer, day, d);
      UpsertedRow(daily, samples, cutoff, peer, day, d);
      if day * DAY <= cutoff {
        SumSplits(samples, peer, 0, day * DAY, DayEnd(day, cutoff), d);
      } else {
        EmptyRange(samples, peer, day * DAY, cutoff, d);
      }
      if !Any(samples, peer, day * DAY, DayEnd(day, cutoff)) {
        NothingInRange(samples, peer, day * DAY, DayEnd(day, cutoff), d);
      }
    }
  }

  lemma {:induction false} EmptyRange(samples: seq<Sample>, peer: PeerId, from: int, to: int, d: Direction)
    requires to <= from
    ensures Sum(samples, peer, from, to, d) == 0
  {
    if samples != [] { EmptyRange(samples[..|samples| - 1], peer, from, to, d); }
  }

  /**
    A completed roll-up loses what the overwritten rows held and what was sampled between its two cutoffs, and
    nothing else.
  */
  lemma RollupLoses(samples: seq<Sample>, daily: map<DayKey, Bytes>, c: nat, c': nat, peer: PeerId, end: nat, d: Direction)
    requires c <= c' <= end * DAY
    ensures Total(samples, daily, peer, end, d) ==
              Total(Remaining(samples, c'), Upserted(daily, samples, c), peer, end, d)
              + Overwritten(daily, samples, c, peer, end, d) + Sum(samples, peer, c, c', d)
  {
    UpsertedSum(daily, samples, c, peer, end, d);
    SumOfRemaining(samples, c', peer, 0, end * DAY, d);
    SumSplits(samples, peer, 0, c, end * DAY, d);
    SumSplits(samples, peer, c, c', end * DAY, d);
  }

  // ----- the worker -----

  /** What grouping the old samples by peer and day sums up to. */
  function DaySums(samples: seq<Sample>, cutoff: int): map<DayKey, Bytes> {
    map key | key in DaysBefore(samples, cutoff) ::
      Bytes(Sum(samples, key.peer, key.day * DAY, DayEnd(key.day, cutoff), Receive),
            Sum(samples, key.peer, key.day * DAY, DayEnd(key.day, cutoff), Transmit))
  }

  function Plus(a: Bytes, b: Bytes): Bytes { Bytes(a.rx + b.rx, a.tx + b.tx) }

  lemma InItsDayOnly(s: Sample, cutoff: int, peer: PeerId, day: nat)
    ensures InRange(s, peer, day * DAY, DayEnd(day, cutoff)) <==>
              s.time < cutoff && DayKey(s.peer, s.time / DAY) == DayKey(peer, day)
  {
  }

  lemma OneMoreDaySum(samples: seq<Sample>, s: Sample, cutoff: int, key: DayKey)
    ensures key in DaysBefore(samples + [s], cutoff) <==>
              key in DaysBefore(samples, cutoff) || (s.time < cutoff && key == DayKey(s.peer, s.time / DAY))
    ensures key in DaysBefore(samples + [s], cutoff) ==>
              DaySums(samples + [s], cutoff)[key] ==
                Plus(if key in DaysBefore(samples, cutoff) then DaySums(samples, cutoff)[key] else Bytes(0, 0),
                     if s.time < cutoff && key == DayKey(s.peer, s.time / DAY) then s.bytes else Bytes(0, 0))
  {
    InItsDayOnly(s, cutoff, key.peer, key.day);
    DayHasSamples(samples, key.peer, key.day, cutoff);
    if key !in DaysBefore(samples, cutoff) {
      NothingInRange(samples, key.peer, key.day * DAY, DayEnd(key.day, cutoff), Receive);
      NothingInRange(samples, key.peer, key.day * DAY, DayEnd(key.day, cutoff), Transmit);
    }
    SumAppend(samples, s, key.peer, key.day * DAY, DayEnd(key.day, cutoff), Receive);
    SumAppend(samples, s, key.peer, key.day * DAY, DayEnd(key.day, cutoff), Transmit);
  }

  lemma DaySumsStep(samples: seq<Sample>, s: Sample, cutoff: int)
    ensures DaySums(samples + [s], cutoff) ==
              if s.time >= cutoff then DaySums(samples, cutoff)
              else
                var key := DayKey(s.peer, s.time / DAY);
                DaySums(samples, cutoff)
                  [key := Plus(if key in DaysBefore(samples, cutoff) then DaySums(samples, cutoff)[key] else Bytes(0, 0), s.bytes)]
  {
    forall key ensures key in DaysBefore(samples + [s], cutoff) <==>
                         key in DaysBefore(samples, cutoff) || (s.time < cutoff && key == DayKey(s.peer, s.time / DAY))
    {
      OneMoreDaySum(samples, s, cutoff, key);
    }
    forall key | key in DaysBefore(samples + [s], cutoff)
      ensures DaySums(samples + [s], cutoff)[key] ==
                Plus(if key in DaysBefore(samples, cutoff) then DaySums(samples, cutoff)[key] else Bytes(0, 0),
                     if s.time < cutoff && key == DayKey(s.peer, s.time / DAY) then s.bytes else Bytes(0, 0))
    {
      OneMoreDaySum(samples, s, cutoff, key);
    }
  }

  class TrafficTables {
    var samples: seq<Sample>
    var daily: map<DayKey, Bytes>

    /**
      Each statement reads the clock for itself, and may fail; nothing after a failed statement happens. A completed
      roll-up keeps every peer's total but for what the overwritten rows held and what came between the cutoffs; one
      that stopped after the upsert still has all samples.
    */
    method Rollup(upsertCutoff: nat, deleteCutoff: nat, upsertOk: bool, deleteOk: bool) returns (completed: bool)
      modifies this
      ensures completed == (upsertOk && deleteOk)
      ensures !upsertOk ==> daily == old(daily)
      ensures upsertOk ==> daily == Upserted(old(daily), old(samples), upsertCutoff)
      ensures !completed ==> samples == old(samples)
      ensures completed ==> forall s :: s in samples <==> s in old(samples) && s.time >= deleteCutoff
      ensures completed && upsertCutoff <= deleteCutoff ==>
                forall peer, end: nat, d | deleteCutoff <= end * DAY ::
                  Total(old(samples), old(daily), peer, end, d) ==
                    Total(samples, daily, peer, end, d)
                    + Overwritten(old(daily), old(samples), upsertCutoff, peer, end, d)
                    + Sum(old(samples), peer, upsertCutoff, deleteCutoff, d)
    {
      if !upsertOk {
        return false;
      }
      Upsert(upsertCutoff);
      if !deleteOk {
        return false;
      }
      DeleteOld(deleteCutoff);
      forall s ensures s in samples <==> s in old(samples) && s.time >= deleteCutoff {
        RemainingAreLate(old(samples), deleteCutoff, s);
      }
      forall peer, end: nat, d | upsertCutoff <= deleteCutoff <= end * DAY
        ensures Total(old(samples), old(daily), peer, end, d) ==
                  Total(samples, daily, peer, end, d)
                  + Overwritten(old(daily), old(samples), upsertCutoff, peer, end, d)
                  + Sum(old(samples), peer, upsertCutoff, deleteCutoff, d)
      {
        RollupLoses(old(samples), old(daily), upsertCutoff, deleteCutoff, peer, end, d);
      }
      return true;
    }

    /** Group the old samples by peer and day, add each group up, and let the sums replace the rows there are. */
    method Upsert(cutoff: nat)
      modifies this`daily
      ensures daily == Upserted(old(daily), samples, cutoff)
    {
      var sums: map<DayKey, Bytes> := map[];
      for k := 0 to |samples|
        invariant daily == old(daily)
        invariant sums == DaySums(samples[..k], cutoff)
      {
        var s := samples[k];
        assert samples[..k + 1] == samples[..k] + [s];
        DaySumsStep(samples[..k], s, cutoff);
        if s.time < cutoff {
          var key := DayKey(s.peer, s.time / DAY);
          sums := sums[key := Plus(if key in sums then sums[key] else Bytes(0, 0), s.bytes)];
        }
      }
      assert samples[..|samples|] == samples;
      daily := daily + sums;
    }

    method DeleteOld(cutoff: nat)
      modifies this`samples
      ensures samples == Remaining(old(samples), cutoff)
    {
      var kept: seq<Sample> := [];
      for k := 0 to |samples|
        invariant samples == old(samples)
        invariant kept == Remaining(samples[..k], cutoff)
      {
        assert samples[..k + 1] == samples[..k] + [samples[k]];
        RemainingAppend(samples[..k], samples[k], cutoff);
        if samples[k].time >= cutoff {
          kept := kept + [samples[k]];
        }
      }
      assert samples[..|samples|] == samples;
      samples := kept;
    }
  }

  /** So it conserves the peer's total exactly when nothing was sampled between the cutoffs and no overwritten row held anything. */
  lemma RollupConservesExactly(samples: seq<Sample>, daily: map<DayKey, Bytes>, c: nat, c': nat, peer: PeerId, end: nat, d: Direction)
    requires c <= c' <= end * DAY
    ensures Total(Remaining(samples, c'), Upserted(daily, samples, c), peer, end, d) == Total(samples, daily, peer, end, d) <==>
              && Sum(samples, peer, c, c', d) == 0
              && forall day | 0 <= day < end && Any(samples, peer, day * DAY, DayEnd(day, c)) :: Row(daily, peer, day, d) == 0
  {
    RollupLoses(samples, daily, c, c', peer, end, d);
    OverwrittenNothing(daily, samples, c, peer, end, d);
  }

  lemma {:induction false} OverwrittenNothing(daily: map<DayKey, Bytes>, samples: seq<Sample>, c: int, peer: PeerId, end: nat, d: Direction)
    ensures Overwritten(daily, samples, c, peer, end, d) == 0 <==>
              forall day | 0 <= day < end && Any(samples, peer, day * DAY, DayEnd(day, c)) :: Row(daily, peer, day, d) == 0
  {
    if end > 0 { OverwrittenNothing(daily, samples, c, peer, end - 1, d); }
  }

  /** Two roll-ups with a cutoff at noon lose a morning: the second one overwrites the row of the first. */
  lemma NoonCutoffLoses()
    ensures var morning, evening := Sample(0, 100, Bytes(7, 0)), Sample(0, 80_000, Bytes(1, 0));
            var once := Upserted(map[], [morning, evening], DAY / 2);
            var rest := Remaining([morning, evening], DAY / 2);
            Total(Remaining(rest, DAY), Upserted(once, rest, DAY), 0, 1, Receive)
              < Total([morning, evening], map[], 0, 1, Receive)
  {
    var morning, evening := Sample(0, 100, Bytes(7, 0)), Sample(0, 80_000, Bytes(1, 0));
    var both := [morning, evening];
    assert both == [morning] + [evening] && [morning] == [] + [morning];
    var once := Upserted(map[], both, DAY / 2);
    var rest := Remaining(both, DAY / 2);
    RemainingAppend([], morning, DAY / 2);
    RemainingAppend([morning], evening, DAY / 2);
    RollupLoses(both, map[], DAY / 2, DAY / 2, 0, 1, Receive);
    EmptyRange(both, 0, DAY / 2, DAY / 2, Receive);
    RollupLoses(rest, once, DAY, DAY, 0, 1, Receive);
    assert InRange(morning, 0, 0, DayEnd(0, DAY / 2)) && morning in both;
    UpsertedRow(map[], both, DAY / 2, 0, 0, Receive);
    SumAppend([], morning, 0, 0, DAY / 2, Receive);
    SumAppend([morning], evening, 0, 0, DAY / 2, Receive);
    assert InRange(evening, 0, 0, DayEnd(0, DAY)) && evening in rest;
    assert Overwritten(once, rest, DAY, 0, 1, Receive) == Overwritten(once, rest, DAY, 0, 0, Receive) + Row(once, 0, 0, Receive);
  }

  // ----- runs with one cutoff at the start of a day -----

  datatype Outcome = Nothing | UpsertOnly | Completed

  /** A sample is taken at the current time; a roll-up uses the start of the day `retention` before now. */
  datatype Step = Wait(seconds: nat) | Take(peer: PeerId, bytes: Bytes) | Rollup(outcome: Outcome)

  /** `upserted` and `deleted` are the days up to which the two statements have got; `taken` is every sample ever. */
  datatype World = World(
    now: nat, samples: seq<Sample>, daily: map<DayKey, Bytes>, taken: seq<Sample>, upserted: nat, deleted: nat)

  const FIRST := World(0, [], map[], [], 0, 0)
  const RETENTION := 30

  function CutoffDay(now: nat): nat {
    if now / DAY < RETENTION then 0 else now / DAY - RETENTION
  }

  function Do(w: World, step: Step): World {
    match step
    case Wait(seconds) => w.(now := w.now + seconds)
    case Take(peer, bytes) =>
      var s := Sample(peer, w.now, bytes);
      w.(samples := w.samples + [s], taken := w.taken + [s])
    case Rollup(outcome) =>
      var day := CutoffDay(w.now);
      if outcome.Nothing? then w
      else if outcome.UpsertOnly? then w.(daily := Upserted(w.daily, w.samples, day * DAY), upserted := day)
      else
        w.(daily := Upserted(w.daily, w.samples, day * DAY), samples := Remaining(w.samples, day * DAY),
           upserted := day, deleted := day)
  }

  function Run(steps: seq<Step>): World {
    if steps == [] then FIRST else Do(Run(steps[..|steps| - 1]), steps[|steps| - 1])
  }

  /** The samples are those taken since the last delete, and every upserted day holds exactly what was taken on it. */
  ghost predicate Inv(w: World) {
    && w.deleted <= w.upserted <= CutoffDay(w.now)
    && (forall s | s in w.taken :: s.time <= w.now)
    && w.samples == Remaining(w.taken, w.deleted * DAY)
    && (forall key | key in w.daily :: key.day < w.upserted)
    && (forall peer, day, d | 0 <= day < w.upserted :: Row(w.daily, peer, day, d) == Sum(w.taken, peer, day * DAY, (day + 1) * DAY, d))
  }

  lemma {:induction false} RemainingTwice(samples: seq<Sample>, c: int, c': int)
    requires c <= c'
    ensures Remaining(Remaining(samples, c), c') == Remaining(samples, c')
  {
    if samples != [] {
      var last := samples[|samples| - 1];
      RemainingTwice(samples[..|samples| - 1], c, c');
      if last.time < c {
        assert Remaining(samples, c) == Remaining(samples[..|samples| - 1], c);
      } else {
        RemainingAppend(Remaining(samples[..|samples| - 1], c), last, c');
      }
    }
  }

  lemma TakeKeepsInv(w: World, peer: PeerId, bytes: Bytes)
    requires Inv(w)
    ensures Inv(Do(w, Take(peer, bytes)))
  {
    var s := Sample(peer, w.now, bytes);
    RemainingAppend(w.taken, s, w.deleted * DAY);
    forall p, day, d | 0 <= day < w.upserted
      ensures Row(w.daily, p, day, d) == Sum(w.taken + [s], p, day * DAY, (day + 1) * DAY, d)
    {
      SumAppend(w.taken, s, p, day * DAY, (day + 1) * DAY, d);
    }
  }

  lemma UpsertKeepsRow(w: World, peer: PeerId, day: nat, d: Direction)
    requires Inv(w) && day < CutoffDay(w.now)
    ensures Row(Upserted(w.daily, w.samples, CutoffDay(w.now) * DAY), peer, day, d) == Sum(w.taken, peer, day * DAY, (day + 1) * DAY, d)
  {
    var cutoff := CutoffDay(w.now) * DAY;
    assert DayEnd(day, cutoff) == (day + 1) * DAY;
    UpsertedRow(w.daily, w.samples, cutoff, peer, day, d);
    SumOfRemaining(w.taken, w.deleted * DAY, peer, day * DAY, (day + 1) * DAY, d);
    if day < w.deleted {
      if s :| s in w.samples && InRange(s, peer, day * DAY, (day + 1) * DAY) {
        RemainingAreLate(w.taken, w.deleted * DAY, s);
      }
    } else if !Any(w.samples, peer, day * DAY, (day + 1) * DAY) {
      NothingInRange(w.samples, peer, day * DAY, (day + 1) * DAY, d);
      if day >= w.upserted { assert DayKey(peer, day) !in w.daily; }
    }
  }

  lemma RollupKeepsInv(w: World, outcome: Outcome)
    requires Inv(w)
    ensures Inv(Do(w, Rollup(outcome)))
  {
    var cutoff := CutoffDay(w.now) * DAY;
    RemainingTwice(w.taken, w.deleted * DAY, cutoff);
    forall peer, day, d | 0 <= day < CutoffDay(w.now)
      ensures Row(Upserted(w.daily, w.samples, cutoff), peer, day, d) == Sum(w.taken, peer, day * DAY, (day + 1) * DAY, d)
    {
      UpsertKeepsRow(w, peer, day, d);
    }
  }

  lemma {:induction false} RunKeepsInv(steps: seq<Step>)
    ensures Inv(Run(steps))
  {
    if steps != [] {
      var w := Run(steps[..|steps| - 1]);
      RunKeepsInv(steps[..|steps| - 1]);
      match steps[|steps| - 1]
      case Wait(_) =>
      case Take(peer, bytes) => TakeKeepsInv(w, peer, bytes);
      case Rollup(outcome) => RollupKeepsInv(w, outcome);
    }
  }

  lemma {:induction false} RowsAddUp(w: World, peer: PeerId, end: nat, d: Direction)
    requires Inv(w)
    ensures DailySum(w.daily, peer, 0, end, d) == Sum(w.taken, peer, 0, Least(end, w.upserted) * DAY, d)
  {
    if end == 0 {
      EmptyRange(w.taken, peer, 0, 0, d);
    } else {
      RowsAddUp(w, peer, end - 1, d);
      if end <= w.upserted {
        SumSplits(w.taken, peer, 0, (end - 1) * DAY, end * DAY, d);
      } else {
        assert DayKey(peer, end - 1) !in w.daily;
      }
    }
  }

  /**
    After any run of samples, roll-ups, failures and crashes, a peer's samples and daily rows add up to all it ever
    transferred, plus what a crash between the statements left in both places.
  */
  lemma RunAccountsForEverything(steps: seq<Step>, peer: PeerId, end: nat, d: Direction)
    requires Within(Run(steps).taken, Run(steps).daily, end) && Run(steps).upserted <= end
    ensures var w := Run(steps);
            Total(w.samples, w.daily, peer, end, d) ==
              Sum(w.taken, peer, 0, end * DAY, d) + Sum(w.taken, peer, w.deleted * DAY, w.upserted * DAY, d)
  {
    var w := Run(steps);
    RunKeepsInv(steps);
    RowsAddUp(w, peer, end, d);
    SumOfRemaining(w.taken, w.deleted * DAY, peer, 0, end * DAY, d);
    SumSplits(w.taken, peer, 0, w.deleted * DAY, end * DAY, d);
    SumSplits(w.taken, peer, 0, w.deleted * DAY, w.upserted * DAY, d);
  }

  /** A roll-up that completes, after whatever happened before, conserves every total and leaves no day counted twice. */
  lemma CompletedRollupConserves(steps: seq<Step>, peer: PeerId, end: nat, d: Direction)
    requires var w := Run(steps + [Rollup(Completed)]); Within(w.taken, w.daily, end) && w.upserted <= end
    ensures var w := Run(steps + [Rollup(Completed)]);
            && Total(w.samples, w.daily, peer, end, d) == Sum(w.taken, peer, 0, end * DAY, d)
            && w.taken == Run(steps).taken
            && forall s | s in w.samples :: DayKey(s.peer, s.time / DAY) !in w.daily
  {
    var all := steps + [Rollup(Completed)];
    assert all[..|steps|] == steps;
    var w := Run(all);
    assert w == Do(Run(steps), Rollup(Completed));
    RunKeepsInv(all);
    RunAccountsForEverything(all, peer, end, d);
    EmptyRange(w.taken, peer, w.deleted * DAY, w.upserted * DAY, d);
    forall s | s in w.samples ensures DayKey(s.peer, s.time / DAY) !in w.daily {
      RemainingAreLate(w.taken, w.deleted * DAY, s);
    }
  }
}
