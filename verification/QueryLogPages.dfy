/**
  Reading a query log in pages when several entries may have one time.

  A page asks for what is strictly older than the last entry of the page before. The import is modelled on logs
  whose times are pairwise distinct; here times only never increase, and it is shown what that assumption is for.
*/
module QueryLogPages {
  import opened BrowseImport

  predicate NotNewer(log: seq<Entry>, i: nat, j: nat)
    requires i < |log| && j < |log|
  {
    log[i].time >= log[j].time
  }

  ghost predicate NeverIncreasing(log: seq<Entry>) {
    && (forall i | 0 <= i < |log| :: log[i].time > 0)
    && (forall i: nat, j: nat | i < j < |log| :: NotNewer(log, i, j))
  }

  /** What `pages` pages hold, read one after the other until one is empty. */
  function Walked(log: seq<Entry>, olderThan: Time, size: nat, pages: nat): seq<Entry>
    decreases pages
  {
    if pages == 0 then []
    else
      var page := Fetch(log, olderThan, size);
      if page == [] then [] else page + Walked(log, page[|page| - 1].time, size, pages - 1)
  }

  /** An entry that starts here does not have the time of the one before. */
  predicate CleanAt(log: seq<Entry>, pos: nat) {
    0 < pos < |log| ==> log[pos - 1].time > log[pos].time
  }

  /** No page boundary before `end` lies between two entries of one time. */
  ghost predicate CleanBoundaries(log: seq<Entry>, size: nat, end: nat)
    requires size > 0
  {
    forall pos: nat | pos < end && pos % size == 0 :: CleanAt(log, pos)
  }

  // ----- one page -----

  lemma {:induction false} DropsTheNewer(log: seq<Entry>, olderThan: Time) returns (q: nat)
    requires NeverIncreasing(log)
    ensures q <= |log| && DropFrom(log, olderThan) == log[q..]
    ensures (forall i | 0 <= i < q :: log[i].time >= olderThan) && (forall i | q <= i < |log| :: log[i].time < olderThan)
  {
    q := 0;
    if log == [] {
    } else if log[0].time >= olderThan {
      forall i: nat, j: nat | i < j < |log[1..]| ensures NotNewer(log[1..], i, j) {
        assert NotNewer(log, i + 1, j + 1);
      }
      q := DropsTheNewer(log[1..], olderThan);
      assert forall i | 0 <= i < q :: log[1..][i] == log[i + 1];
      assert forall i | q <= i < |log| - 1 :: log[1..][i] == log[i + 1];
      q := q + 1;
    } else {
      forall i | 0 < i < |log| ensures log[i].time < olderThan {
        assert NotNewer(log, 0, i);
      }
    }
  }

  lemma NoneOlderBefore(log: seq<Entry>, pos: nat)
    requires NeverIncreasing(log) && pos < |log|
    ensures forall i | 0 <= i <= pos :: log[i].time >= log[pos].time
  {
    forall i: nat | i < pos ensures log[i].time >= log[pos].time {
      assert NotNewer(log, i, pos);
    }
  }

  function TimeBefore(log: seq<Entry>, pos: nat): Time
    requires pos <= |log|
  {
    if pos == 0 then 0 else log[pos - 1].time
  }

  /** From a clean position a page is the next slice. */
  lemma PageIsSlice(log: seq<Entry>, pos: nat, size: nat)
    requires NeverIncreasing(log) && pos <= |log| && CleanAt(log, pos)
    ensures Fetch(log, TimeBefore(log, pos), size) == log[pos..Least(pos + size, |log|)]
  {
    if pos > 0 {
      var q := DropsTheNewer(log, log[pos - 1].time);
      NoneOlderBefore(log, pos - 1);
      assert pos < |log| ==> log[pos].time < log[pos - 1].time;
    }
  }

  /** Everything on the pages to come is older. */
  lemma PageIsOlder(log: seq<Entry>, olderThan: Time, size: nat, e: Entry)
    requires NeverIncreasing(log) && olderThan > 0 && e in Fetch(log, olderThan, size)
    ensures e in log && 0 < e.time < olderThan
  {
    var q := DropsTheNewer(log, olderThan);
    assert e in log[q..];
    var i :| 0 <= i < |log| - q && log[q..][i] == e;
    assert log[q + i] == e;
  }

  lemma {:induction false} WalkedIsOlder(log: seq<Entry>, olderThan: Time, size: nat, pages: nat, e: Entry)
    requires NeverIncreasing(log) && olderThan > 0 && e in Walked(log, olderThan, size, pages)
    ensures e in log && e.time < olderThan
    decreases pages
  {
    var page := Fetch(log, olderThan, size);
    if e in page {
      PageIsOlder(log, olderThan, size, e);
    } else {
      PageIsOlder(log, olderThan, size, page[|page| - 1]);
      WalkedIsOlder(log, page[|page| - 1].time, size, pages - 1, e);
    }
  }

  // ----- whole pages -----

  lemma Multiples(size: nat, d: int)
    ensures d >= 1 ==> size * d >= size
    ensures d <= -1 ==> size * d + size <= 0
  {
  }

  lemma QuotientIs(x: nat, size: nat, q: nat, r: nat)
    requires r < size && x == size * q + r
    ensures x % size == r
  {
    var d := x / size - q;
    assert size * d == r - x % size;
    Multiples(size, d);
  }

  lemma NextBoundary(pos: nat, size: nat)
    requires size > 0 && pos % size == 0
    ensures (pos + size) % size == 0
  {
    assert pos + size == size * (pos / size + 1);
    QuotientIs(pos + size, size, pos / size + 1, 0);
  }

  lemma NoneBetween(pos: nat, size: nat, other: nat)
    requires size > 0 && pos % size == 0 && other % size == 0 && pos < other
    ensures pos + size <= other
  {
    if other < pos + size { QuotientIs(other, size, pos / size, other - pos); }
  }

  // ----- all pages -----

  /** What `pages` pages from a position should hold. */
  function Due(log: seq<Entry>, pos: nat, size: nat, pages: nat): seq<Entry>
    decreases pages
  {
    if pages == 0 || pos >= |log| then [] else log[pos..Least(pos + size, |log|)] + Due(log, pos + size, size, pages - 1)
  }

  predicate CleanFrom(log: seq<Entry>, pos: nat, size: nat, pages: nat)
    decreases pages
  {
    pages <= 1 || pos + size >= |log| || (CleanAt(log, pos + size) && CleanFrom(log, pos + size, size, pages - 1))
  }

  lemma WalkOnePage(log: seq<Entry>, pos: nat, size: nat, pages: nat)
    requires NeverIncreasing(log) && size > 0 && pages > 0 && pos < |log| && CleanAt(log, pos)
    ensures var end := Least(pos + size, |log|);
            Walked(log, TimeBefore(log, pos), size, pages) == log[pos..end] + Walked(log, log[end - 1].time, size, pages - 1)
  {
    PageIsSlice(log, pos, size);
  }

  lemma NothingIsOlder(log: seq<Entry>, size: nat, pages: nat)
    requires NeverIncreasing(log) && log != []
    ensures Walked(log, log[|log| - 1].time, size, pages) == []
  {
    var rest := Walked(log, log[|log| - 1].time, size, pages);
    NoneOlderBefore(log, |log| - 1);
    if rest != [] {
      assert rest[0] in rest;
      WalkedIsOlder(log, log[|log| - 1].time, size, pages, rest[0]);
    }
  }

  /** After a boundary within one time comes something older than the entry that is due. */
  lemma UncleanSkips(log: seq<Entry>, pos: nat, size: nat, pages: nat)
    requires NeverIncreasing(log) && size > 0 && pages > 0 && 0 < pos < |log| && !CleanAt(log, pos)
    ensures Walked(log, log[pos - 1].time, size, pages) != Due(log, pos, size, pages)
  {
    var due := Due(log, pos, size, pages);
    assert due[0] == log[pos] && due[0] in due;
    if Walked(log, log[pos - 1].time, size, pages) == due {
      WalkedIsOlder(log, log[pos - 1].time, size, pages, due[0]);
    }
  }

  lemma SamePrefix(a: seq<Entry>, b: seq<Entry>, c: seq<Entry>)
    ensures a + b == a + c <==> b == c
  {
    assert (a + b)[|a|..] == b && (a + c)[|a|..] == c;
  }

  /** The pages from a position hold what they should. */
  ghost predicate Full(log: seq<Entry>, pos: nat, size: nat, pages: nat)
    requires pos <= |log|
  {
    Walked(log, TimeBefore(log, pos), size, pages) == Due(log, pos, size, pages)
  }

  lemma FullIfRestIs(log: seq<Entry>, pos: nat, size: nat, pages: nat)
    requires NeverIncreasing(log) && size > 0 && pages > 0 && pos + size < |log| && CleanAt(log, pos)
    ensures Full(log, pos, size, pages) <==> Full(log, pos + size, size, pages - 1)
  {
    WalkOnePage(log, pos, size, pages);
    PrefixDecides(log, pos, size, pages);
  }

  lemma PrefixDecides(log: seq<Entry>, pos: nat, size: nat, pages: nat)
    requires size > 0 && pages > 0 && pos + size < |log|
    requires var next := pos + size;
             Walked(log, TimeBefore(log, pos), size, pages) == log[pos..next] + Walked(log, log[next - 1].time, size, pages - 1)
    ensures Full(log, pos, size, pages) <==> Full(log, pos + size, size, pages - 1)
  {
    var next := pos + size;
    SamePrefix(log[pos..next], Walked(log, log[next - 1].time, size, pages - 1), Due(log, next, size, pages - 1));
  }

  lemma LastIsFull(log: seq<Entry>, pos: nat, size: nat, pages: nat)
    requires NeverIncreasing(log) && size > 0 && pos < |log| <= pos + size && CleanAt(log, pos)
    ensures Full(log, pos, size, pages)
  {
    if pages > 0 {
      WalkOnePage(log, pos, size, pages);
      NothingIsOlder(log, size, pages - 1);
    }
  }

  /** How fullness from one position depends on the next. */
  ghost predicate FullSteps(full: (nat, nat) -> bool, log: seq<Entry>, pos: nat, size: nat, pages: nat) {
    if |log| <= pos + size || pages <= 1 then full(pos, pages)
    else if CleanAt(log, pos + size) then full(pos, pages) <==> full(pos + size, pages - 1)
    else !full(pos, pages)
  }

  lemma {:induction false} CleanIfFull(full: (nat, nat) -> bool, log: seq<Entry>, pos: nat, size: nat, pages: nat)
    requires size > 0 && pos < |log| && CleanAt(log, pos)
    requires forall p: nat, n: nat | p < |log| && CleanAt(log, p) :: FullSteps(full, log, p, size, n)
    ensures full(pos, pages) <==> CleanFrom(log, pos, size, pages)
    decreases pages
  {
    assert FullSteps(full, log, pos, size, pages);
    if pages > 1 && pos + size < |log| && CleanAt(log, pos + size) {
      CleanIfFull(full, log, pos + size, size, pages - 1);
    }
  }

  lemma FullStep(log: seq<Entry>, pos: nat, size: nat, pages: nat)
    requires NeverIncreasing(log) && size > 0 && pos < |log| && CleanAt(log, pos)
    ensures if |log| <= pos + size || pages <= 1 then Full(log, pos, size, pages)
            else if CleanAt(log, pos + size) then Full(log, pos, size, pages) <==> Full(log, pos + size, size, pages - 1)
            else !Full(log, pos, size, pages)
  {
    if |log| <= pos + size {
      LastIsFull(log, pos, size, pages);
    } else if pages == 0 {
    } else {
      FullIfRestIs(log, pos, size, pages);
      if pages == 1 {
        NoPagesAreFull(log, pos + size, size);
      } else if !CleanAt(log, pos + size) {
        UncleanSkips(log, pos + size, size, pages - 1);
      }
    }
  }

  lemma NoPagesAreFull(log: seq<Entry>, pos: nat, size: nat)
    requires pos <= |log|
    ensures Full(log, pos, size, 0)
  {
  }

  lemma WalkedExactly(log: seq<Entry>, pos: nat, size: nat, pages: nat)
    requires NeverIncreasing(log) && size > 0 && pos < |log| && CleanAt(log, pos)
    ensures Full(log, pos, size, pages) <==> CleanFrom(log, pos, size, pages)
  {
    var full := (p: nat, n: nat) => p <= |log| && Full(log, p, size, n);
    forall p: nat, n: nat | p < |log| && CleanAt(log, p) ensures FullSteps(full, log, p, size, n) {
      FullStep(log, p, size, n);
    }
    CleanIfFull(full, log, pos, size, pages);
  }

  lemma {:induction false} DueIsSlice(log: seq<Entry>, pos: nat, size: nat, pages: nat)
    requires pos <= |log|
    ensures Due(log, pos, size, pages) == log[pos..Least(pos + Span(pages, size), |log|)]
    decreases pages
  {
    if pages > 0 && pos < |log| {
      SpanFromFront(pages, size);
      if pos + size < |log| { DueIsSlice(log, pos + size, size, pages - 1); }
    }
  }

  lemma {:induction false} SpanFromFront(pages: nat, size: nat)
    requires pages > 0
    ensures Span(pages, size) == size + Span(pages - 1, size)
  {
    if pages > 1 { SpanFromFront(pages - 1, size); }
  }

  lemma {:induction false} CleanFromBoundaries(log: seq<Entry>, pos: nat, size: nat, pages: nat)
    requires size > 0 && pos % size == 0
    ensures CleanFrom(log, pos, size, pages) <==>
              forall p: nat | pos < p < pos + Span(pages, size) && p % size == 0 :: CleanAt(log, p)
    decreases pages
  {
    if pages > 0 {
      SpanFromFront(pages, size);
      NextBoundary(pos, size);
      CleanFromBoundaries(log, pos + size, size, pages - 1);
      forall p: nat | pos < p && p % size == 0 ensures p >= pos + size {
        NoneBetween(pos, size, p);
      }
    }
  }

  /**
    For every log and every page size and cap, the pages hold everything down to the cap exactly when no page boundary
    before it lies between two entries of one time.
  */
  lemma PagesHoldTheLogExactly(log: seq<Entry>, size: nat, pages: nat)
    requires NeverIncreasing(log) && size > 0
    ensures Walked(log, 0, size, pages) == log[..Least(Span(pages, size), |log|)] <==>
              CleanBoundaries(log, size, Span(pages, size))
  {
    CleanFromBoundaries(log, 0, size, pages);
    DueIsSlice(log, 0, size, pages);
    if log != [] { WalkedExactly(log, 0, size, pages); }
  }

  // ----- what is lost -----

  lemma NotAfterwards(log: seq<Entry>, pos: nat, size: nat, pages: nat)
    requires NeverIncreasing(log) && 0 < pos < |log| && !CleanAt(log, pos)
    ensures log[pos] !in Walked(log, log[pos - 1].time, size, pages)
  {
    if log[pos] in Walked(log, log[pos - 1].time, size, pages) {
      WalkedIsOlder(log, log[pos - 1].time, size, pages, log[pos]);
    }
  }

  ghost predicate OnPages(log: seq<Entry>, lost: nat, pos: nat, size: nat, pages: nat)
    requires lost < |log| && pos <= |log|
  {
    log[lost] in Walked(log, TimeBefore(log, pos), size, pages)
  }

  lemma NotOnThisPage(log: seq<Entry>, pos: nat, lost: nat, size: nat, pages: nat)
    requires NeverIncreasing(log) && size > 0 && pages > 0 && pos + size <= lost < |log| && CleanAt(log, pos)
    requires log[lost] !in log[..lost]
    ensures OnPages(log, lost, pos, size, pages) <==> OnPages(log, lost, pos + size, size, pages - 1)
  {
    WalkOnePage(log, pos, size, pages);
    NotInEarlier(log, pos, pos + size, lost);
  }

  lemma NotInEarlier(log: seq<Entry>, from: nat, to: nat, lost: nat)
    requires from <= to <= lost < |log| && log[lost] !in log[..lost]
    ensures log[lost] !in log[from..to]
  {
    forall i | from <= i < to ensures log[i] != log[lost] {
      assert log[..lost][i] == log[i];
    }
  }

  lemma NoPages(log: seq<Entry>, lost: nat, pos: nat, size: nat)
    requires lost < |log| && pos <= |log|
    ensures !OnPages(log, lost, pos, size, 0)
  {
  }

  lemma {:induction false} NotWalked(log: seq<Entry>, pos: nat, lost: nat, size: nat, pages: nat)
    requires NeverIncreasing(log) && size > 0 && pos % size == 0 == lost % size && pos < lost < |log|
    requires CleanBoundaries(log, size, lost) && !CleanAt(log, lost) && log[lost] !in log[..lost]
    ensures !OnPages(log, lost, pos, size, pages)
    decreases pages
  {
    NoPages(log, lost, pos, size);
    if pages > 0 {
      NoneBetween(pos, size, lost);
      NextBoundary(pos, size);
      NotOnThisPage(log, pos, lost, size, pages);
      if pos + size < lost {
        NotWalked(log, pos + size, lost, size, pages - 1);
      } else {
        NotAfterwards(log, lost, size, pages - 1);
      }
    }
  }

  /** At the first boundary within one time the entry behind it is on no page. */
  lemma EqualTimesAcrossPages(log: seq<Entry>, lost: nat, size: nat, pages: nat)
    requires NeverIncreasing(log) && size > 0 && 0 < lost < |log| && lost % size == 0
    requires CleanBoundaries(log, size, lost) && !CleanAt(log, lost) && log[lost] !in log[..lost]
    ensures log[lost] !in Walked(log, 0, size, pages)
  {
    NotWalked(log, 0, lost, size, pages);
  }
}
