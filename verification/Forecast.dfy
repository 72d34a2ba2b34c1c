/**
 The precipitation walk and the grouping by day of the forecast page. Rain arrives as one-hour
 blocks and, further out, as six-hour blocks; one pass over the series decides which blocks count.
 */
module Forecast {
  import opened Wrappers

  type Millis = int

  const HOUR: Millis := 3600000

  /** A time step with the rain of the next hour and of the next six hours, where given. */
  datatype Entry = Entry(at: Millis, h1: Option<real>, h6: Option<real>)

  // ---- the walk ------------------------------------------------------------------------------

  /** Length in hours of the block counted for an entry; 0 if none is. */
  function BlockHours(e: Entry, coveredUntil: Millis): nat {
    if e.h1.Some? then 1 else if e.h6.Some? && e.at >= coveredUntil then 6 else 0
  }

  function CoveredAfter(e: Entry, coveredUntil: Millis): Millis {
    if BlockHours(e, coveredUntil) > 0 then e.at + BlockHours(e, coveredUntil) * HOUR else coveredUntil
  }

  /** The marker when the walk reaches entry `i`. */
  function CoveredUntil(ts: seq<Entry>, i: nat): Millis
    requires i <= |ts|
  {
    if i == 0 then 0 else CoveredAfter(ts[i - 1], CoveredUntil(ts, i - 1))
  }

  function Hours(ts: seq<Entry>, i: nat): nat
    requires i < |ts|
  {
    BlockHours(ts[i], CoveredUntil(ts, i))
  }

  predicate Counted(ts: seq<Entry>, i: nat)
    requires i < |ts|
  {
    Hours(ts, i) > 0
  }

  /** End of the block counted for entry `i`. */
  function End(ts: seq<Entry>, i: nat): Millis
    requires i < |ts|
  {
    ts[i].at + Hours(ts, i) * HOUR
  }

  ghost predicate Increasing(ts: seq<Entry>) {
    forall i, j :: 0 <= i < j < |ts| ==> ts[i].at < ts[j].at
  }

  /** The marker always shows the end of the last counted block. */
  lemma {:induction false} MarkerIsLastEnd(ts: seq<Entry>, i: nat) returns (last: int)
    requires i <= |ts|
    ensures -1 <= last < i
    ensures last >= 0 ==> Counted(ts, last) && CoveredUntil(ts, i) == End(ts, last)
    ensures last < 0 ==> CoveredUntil(ts, i) == 0
    ensures forall j :: last < j < i ==> !Counted(ts, j)
  {
    if i == 0 {
      last := -1;
    } else if Counted(ts, i - 1) {
      last := i - 1;
    } else {
      last := MarkerIsLastEnd(ts, i - 1);
    }
  }

  // ---- overlap -------------------------------------------------------------------------------

  ghost predicate Disjoint(ts: seq<Entry>) {
    forall i, j :: 0 <= i < j < |ts| && Counted(ts, i) && Counted(ts, j) ==> End(ts, i) <= ts[j].at
  }

  /** No one-hour block starts inside a block counted before it. */
  ghost predicate HourlyClear(ts: seq<Entry>) {
    forall i, j :: 0 <= i < j < |ts| && Counted(ts, i) && ts[j].h1.Some? ==> End(ts, i) <= ts[j].at
  }

  /** Only one-hour blocks can make the walk count an hour twice; six-hour blocks never do. */
  lemma OverlapOnlyByHourly(ts: seq<Entry>)
    requires Increasing(ts)
    ensures Disjoint(ts) <==> HourlyClear(ts)
  {
    if Disjoint(ts) {
      assert forall j :: 0 <= j < |ts| && ts[j].h1.Some? ==> Counted(ts, j);
    }
    if HourlyClear(ts) {
      forall i, j | 0 <= i < j < |ts| && Counted(ts, i) && Counted(ts, j) ensures End(ts, i) <= ts[j].at {
        ClearToHere(ts, i, j);
      }
    }
  }

  lemma {:induction false} ClearToHere(ts: seq<Entry>, i: nat, j: nat)
    requires Increasing(ts) && HourlyClear(ts)
    requires i < j < |ts| && Counted(ts, i) && Counted(ts, j)
    ensures End(ts, i) <= ts[j].at
    decreases j
  {
    if ts[j].h1.None? {
      var last := MarkerIsLastEnd(ts, j);
      if i < last {
        ClearToHere(ts, i, last);
      }
    }
  }

  predicate SixHourEntry(e: Entry) {
    e.h1.None? && e.h6.Some?
  }

  /** Length in hours of the longest block that can be counted for an entry. */
  function LongestBlock(e: Entry): nat {
    if e.h1.Some? then 1 else if e.h6.Some? then 6 else 0
  }

  lemma BlockIsNoLonger(ts: seq<Entry>, i: nat)
    requires i < |ts|
    ensures Hours(ts, i) <= LongestBlock(ts[i]) && End(ts, i) <= ts[i].at + LongestBlock(ts[i]) * HOUR
  {
  }

  /** On any series it is enough that every one-hour block starts after the longest block of each entry before it. */
  lemma ClearGapsSuffice(ts: seq<Entry>)
    requires Increasing(ts)
    requires forall i, j :: 0 <= i < j < |ts| && ts[j].h1.Some? ==> ts[i].at + LongestBlock(ts[i]) * HOUR <= ts[j].at
    ensures Disjoint(ts)
  {
    forall i, j | 0 <= i < j < |ts| && Counted(ts, i) && ts[j].h1.Some? ensures End(ts, i) <= ts[j].at {
      BlockIsNoLonger(ts, i);
    }
    OverlapOnlyByHourly(ts);
  }

  /** Entries at least an hour apart, those with a six-hour block only at least six, none before the epoch. */
  ghost predicate Grid(ts: seq<Entry>) {
    && (forall i :: 0 <= i < |ts| ==> ts[i].at >= 0)
    && (forall i, j :: 0 <= i < j < |ts| ==> ts[i].at + HOUR <= ts[j].at)
    && (forall i, j :: 0 <= i < j < |ts| && SixHourEntry(ts[i]) && SixHourEntry(ts[j]) ==>
          ts[i].at + 6 * HOUR <= ts[j].at)
  }

  /** On a grid every block there is is counted. */
  lemma GridCountsAll(ts: seq<Entry>, i: nat)
    requires Grid(ts) && i < |ts|
    ensures Hours(ts, i) == LongestBlock(ts[i])
  {
    if SixHourEntry(ts[i]) {
      var last := MarkerIsLastEnd(ts, i);
      assert last >= 0 ==> Hours(ts, last) == if ts[last].h1.Some? then 1 else 6;
    }
  }

  /**
   The exact condition on a grid, to be read off the series: no hour is counted twice if and only if
   every one-hour block starts at least six hours after each entry that has a six-hour block only.
   */
  lemma OverlapOnGrid(ts: seq<Entry>)
    requires Grid(ts)
    ensures Disjoint(ts) <==>
            forall i, j :: 0 <= i < j < |ts| && SixHourEntry(ts[i]) && ts[j].h1.Some? ==>
              ts[i].at + 6 * HOUR <= ts[j].at
  {
    forall i | 0 <= i < |ts| ensures Hours(ts, i) == LongestBlock(ts[i]) {
      GridCountsAll(ts, i);
    }
    if Disjoint(ts) {
      forall i, j | 0 <= i < j < |ts| && SixHourEntry(ts[i]) && ts[j].h1.Some?
        ensures ts[i].at + 6 * HOUR <= ts[j].at
      {
        assert Counted(ts, i) && Counted(ts, j) && End(ts, i) == ts[i].at + 6 * HOUR;
      }
    } else {
      var i, j :| 0 <= i < j < |ts| && Counted(ts, i) && Counted(ts, j) && End(ts, i) > ts[j].at;
      assert SixHourEntry(ts[i]) && ts[j].h1.Some? && ts[i].at + 6 * HOUR > ts[j].at;
    }
  }

  /** The shape of the upstream's series: hourly steps first, then entries without one-hour blocks. */
  ghost predicate UpstreamShape(ts: seq<Entry>, hourly: nat) {
    && hourly <= |ts|
    && (forall i :: 0 <= i < |ts| ==> (ts[i].h1.Some? <==> i < hourly))
    && (forall i, j :: 0 <= i < j < hourly ==> ts[i].at + HOUR <= ts[j].at)
  }

  /** On such a series nothing is counted twice. */
  lemma UpstreamShapeIsDisjoint(ts: seq<Entry>, hourly: nat)
    requires Increasing(ts) && UpstreamShape(ts, hourly)
    ensures Disjoint(ts)
  {
    forall i, j | 0 <= i < j < |ts| && Counted(ts, i) && ts[j].h1.Some? ensures End(ts, i) <= ts[j].at {
      assert ts[i].h1.Some?;
    }
    OverlapOnlyByHourly(ts);
  }

  /** Without the shape it can be: a one-hour block after a six-hour block moves the marker back. */
  lemma MixedSeriesCountsTwice()
    ensures exists ts :: Increasing(ts) && !Disjoint(ts)
  {
    var ts := [Entry(0, None, Some(6.0)), Entry(HOUR, Some(1.0), None), Entry(2 * HOUR, None, Some(6.0))];
    assert CoveredUntil(ts, 0) == 0;
    assert Counted(ts, 0) && Counted(ts, 1) && End(ts, 0) == 6 * HOUR;
    assert ts[1].at == HOUR;
    assert Increasing(ts) && !Disjoint(ts);
  }

  ghost predicate StartsInside(ts: seq<Entry>, i: nat, j: nat)
    requires j < i < |ts|
  {
    Counted(ts, j) && ts[j].at <= ts[i].at < End(ts, j)
  }

  /**
   No block is dropped without its start being covered: a skipped six-hour block starts inside a block
   already counted, unless it lies before the epoch, where the marker begins.
   */
  lemma SkippedStartsInsideCounted(ts: seq<Entry>, i: nat)
    requires Increasing(ts) && i < |ts| && ts[i].h1.None? && ts[i].h6.Some? && ts[i].at >= 0
    ensures !Counted(ts, i) ==> exists j :: 0 <= j < i && StartsInside(ts, i, j)
    ensures Disjoint(ts) && (exists j :: 0 <= j < i && StartsInside(ts, i, j)) ==> !Counted(ts, i)
  {
    if !Counted(ts, i) {
      var last := MarkerIsLastEnd(ts, i);
      assert StartsInside(ts, i, last);
    }
  }

  // ---- lost hours ----------------------------------------------------------------------------

  /** The instant lies in the longest block of the entry. */
  predicate OfferedBy(e: Entry, x: Millis) {
    e.at <= x < e.at + LongestBlock(e) * HOUR
  }

  /** The instant lies in the block counted for the entry. */
  predicate CountedBy(ts: seq<Entry>, i: nat, x: Millis)
    requires i < |ts|
  {
    ts[i].at <= x < End(ts, i)
  }

  ghost predicate CountedSomewhere(ts: seq<Entry>, x: Millis) {
    exists i :: 0 <= i < |ts| && CountedBy(ts, i, x)
  }

  /** Every instant with rain given for it is in a counted block. */
  ghost predicate NothingLost(ts: seq<Entry>) {
    forall i, x :: 0 <= i < |ts| && OfferedBy(ts[i], x) ==> CountedSomewhere(ts, x)
  }

  ghost predicate ResumesAt(ts: seq<Entry>, t: Millis) {
    exists j :: 0 <= j < |ts| && SixHourEntry(ts[j]) && Counted(ts, j) && ts[j].at == t
  }

  /** After each skipped block the counting resumes where the last counted block has ended. */
  ghost predicate NoGaps(ts: seq<Entry>) {
    forall i :: 0 <= i < |ts| && SixHourEntry(ts[i]) && !Counted(ts, i) ==> ResumesAt(ts, CoveredUntil(ts, i))
  }

  lemma SkippedBlock(ts: seq<Entry>, i: nat) returns (last: nat)
    requires Increasing(ts) && i < |ts| && SixHourEntry(ts[i]) && ts[i].at >= 0 && !Counted(ts, i)
    ensures last < i && Counted(ts, last) && ts[last].at < ts[i].at < End(ts, last) == CoveredUntil(ts, i)
    ensures CoveredUntil(ts, i) < ts[i].at + 6 * HOUR
    ensures forall j :: last < j < i ==> !Counted(ts, j)
  {
    var l := MarkerIsLastEnd(ts, i);
    assert l >= 0;
    last := l;
    assert Hours(ts, last) <= 6;
  }

  /** An instant at the end of the last counted block can only be counted by a block starting there. */
  lemma CountedAtMarker(ts: seq<Entry>, hourly: nat, i: nat, j: nat)
    requires Increasing(ts) && UpstreamShape(ts, hourly) && i < |ts| && j < |ts| && ts[i].at >= 0
    requires SixHourEntry(ts[i]) && !Counted(ts, i) && CountedBy(ts, j, CoveredUntil(ts, i))
    ensures SixHourEntry(ts[j]) && Counted(ts, j) && ts[j].at == CoveredUntil(ts, i)
  {
    var last := SkippedBlock(ts, i);
    UpstreamShapeIsDisjoint(ts, hourly);
    assert Counted(ts, j) && End(ts, last) < End(ts, j);
    assert j > i;
    assert End(ts, last) <= ts[j].at;
  }

  /** Nothing of a skipped block is lost if the counting resumes at the marker. */
  lemma ResumedIsCounted(ts: seq<Entry>, i: nat, x: Millis)
    requires Increasing(ts) && i < |ts| && SixHourEntry(ts[i]) && ts[i].at >= 0 && !Counted(ts, i)
    requires ResumesAt(ts, CoveredUntil(ts, i)) && OfferedBy(ts[i], x)
    ensures CountedSomewhere(ts, x)
  {
    var last := SkippedBlock(ts, i);
    var j :| 0 <= j < |ts| && SixHourEntry(ts[j]) && Counted(ts, j) && ts[j].at == CoveredUntil(ts, i);
    assert CountedBy(ts, last, x) || CountedBy(ts, j, x);
  }

  lemma SkippedResumes(ts: seq<Entry>, hourly: nat, i: nat)
    requires Increasing(ts) && UpstreamShape(ts, hourly) && NothingLost(ts)
    requires i < |ts| && SixHourEntry(ts[i]) && ts[i].at >= 0 && !Counted(ts, i)
    ensures ResumesAt(ts, CoveredUntil(ts, i))
  {
    var x := CoveredUntil(ts, i);
    var last := SkippedBlock(ts, i);
    assert OfferedBy(ts[i], x);
    assert CountedSomewhere(ts, x);
    var j :| 0 <= j < |ts| && CountedBy(ts, j, x);
    CountedAtMarker(ts, hourly, i, j);
  }

  lemma OfferedIsCounted(ts: seq<Entry>, i: nat, x: Millis)
    requires Increasing(ts) && NoGaps(ts) && i < |ts| && ts[i].at >= 0 && OfferedBy(ts[i], x)
    ensures CountedSomewhere(ts, x)
  {
    if SixHourEntry(ts[i]) && !Counted(ts, i) {
      ResumedIsCounted(ts, i, x);
    } else {
      assert CountedBy(ts, i, x);
    }
  }

  /**
   "Each hour is counted exactly once", on a series of the upstream's shape from the epoch on: nothing is
   counted twice, and nothing is lost if and only if, after each skipped block, another counted block
   starts where the last one has ended.
   */
  lemma ExactlyOnce(ts: seq<Entry>, hourly: nat)
    requires Increasing(ts) && UpstreamShape(ts, hourly) && (forall i :: 0 <= i < |ts| ==> ts[i].at >= 0)
    ensures Disjoint(ts)
    ensures NothingLost(ts) <==> NoGaps(ts)
  {
    UpstreamShapeIsDisjoint(ts, hourly);
    if NothingLost(ts) {
      forall i | 0 <= i < |ts| && SixHourEntry(ts[i]) && !Counted(ts, i) ensures ResumesAt(ts, CoveredUntil(ts, i)) {
        SkippedResumes(ts, hourly, i);
      }
    }
    if NoGaps(ts) {
      forall i, x | 0 <= i < |ts| && OfferedBy(ts[i], x) ensures CountedSomewhere(ts, x) {
        OfferedIsCounted(ts, i, x);
      }
    }
  }

  /** On a grid nothing is skipped, so nothing is lost. */
  lemma GridLosesNothing(ts: seq<Entry>)
    requires Grid(ts)
    ensures NothingLost(ts)
  {
    forall i, x | 0 <= i < |ts| && OfferedBy(ts[i], x) ensures CountedSomewhere(ts, x) {
      GridCountsAll(ts, i);
      assert CountedBy(ts, i, x);
    }
  }

  /** Off the grid hours can be lost: of blocks at 0, 3 and 12 hours, the second is skipped, and hour 7 with it. */
  lemma HoursCanBeLost()
    ensures exists ts :: Increasing(ts) && SixHourOnly(ts) && Disjoint(ts) && !NothingLost(ts)
  {
    var ts := [Entry(0, None, Some(6.0)), Entry(3 * HOUR, None, Some(6.0)), Entry(12 * HOUR, None, Some(6.0))];
    assert CoveredUntil(ts, 0) == 0;
    assert CoveredUntil(ts, 1) == 6 * HOUR && CoveredUntil(ts, 2) == 6 * HOUR;
    UpstreamShapeIsDisjoint(ts, 0);
    assert OfferedBy(ts[1], 7 * HOUR);
    assert !CountedBy(ts, 0, 7 * HOUR) && !CountedBy(ts, 1, 7 * HOUR) && !CountedBy(ts, 2, 7 * HOUR);
    assert !CountedSomewhere(ts, 7 * HOUR);
    assert Increasing(ts) && SixHourOnly(ts) && Disjoint(ts) && !NothingLost(ts);
  }

  /** Before the epoch nothing six-hourly is counted until a one-hour block has been. */
  lemma BeforeEpochIsSkipped(ts: seq<Entry>, i: nat)
    requires i < |ts| && ts[i].h1.None? && ts[i].at < 0
    requires forall j :: 0 <= j < i ==> ts[j].h1.None? && ts[j].at < 0
    ensures !Counted(ts, i)
  {
    var last := MarkerIsLastEnd(ts, i);
    if last >= 0 {
      BeforeEpochIsSkipped(ts, last);
    }
  }

  // ---- optimality ----------------------------------------------------------------------------

  /** Number of counted blocks among the first `n` entries. */
  function Count(ts: seq<Entry>, n: nat): nat
    requires n <= |ts|
  {
    if n == 0 then 0 else Count(ts, n - 1) + (if Counted(ts, n - 1) then 1 else 0)
  }

  ghost predicate SixHourOnly(ts: seq<Entry>) {
    forall i :: 0 <= i < |ts| ==> ts[i].h1.None?
  }

  /** A choice of six-hour blocks from entry `lo` on, none starting before `from`, no two overlapping. */
  ghost predicate DisjointChoice(ts: seq<Entry>, lo: nat, earliest: Millis, choice: set<nat>) {
    && (forall i :: i in choice ==> lo <= i < |ts| && ts[i].h6.Some? && ts[i].at >= earliest)
    && (forall i, j :: i in choice && j in choice && i < j ==> ts[i].at + 6 * HOUR <= ts[j].at)
  }

  lemma Least(s: set<nat>) returns (m: nat)
    requires s != {}
    ensures m in s && forall x :: x in s ==> m <= x
  {
    var y :| y in s;
    var smaller := set x | x in s && x < y;
    if smaller == {} {
      forall x | x in s ensures y <= x {
        assert x !in smaller;
      }
      m := y;
    } else {
      assert smaller <= s - {y};
      m := Least(smaller);
      forall x | x in s ensures m <= x {
        assert x in smaller || y <= x;
      }
    }
  }

  /** Greedy stays ahead: from any entry on, no disjoint choice is larger than what the walk still counts. */
  lemma {:induction false} GreedyStaysAhead(ts: seq<Entry>, lo: nat, choice: set<nat>)
    requires Increasing(ts) && SixHourOnly(ts) && lo <= |ts|
    requires DisjointChoice(ts, lo, CoveredUntil(ts, lo), choice)
    ensures Count(ts, lo) + |choice| <= Count(ts, |ts|)
    decreases |ts| - lo
  {
    if lo == |ts| {
      NothingLeftToChoose(ts, choice);
    } else if !Counted(ts, lo) {
      SkippedIsNotChosen(ts, lo, choice);
      GreedyStaysAhead(ts, lo + 1, choice);
    } else {
      var rest := RestOfChoice(ts, lo, choice);
      GreedyStaysAhead(ts, lo + 1, rest);
    }
  }

  lemma NothingLeftToChoose(ts: seq<Entry>, choice: set<nat>)
    requires DisjointChoice(ts, |ts|, CoveredUntil(ts, |ts|), choice)
    ensures choice == {}
  {
    assert forall i :: i !in choice;
  }

  lemma SkippedIsNotChosen(ts: seq<Entry>, lo: nat, choice: set<nat>)
    requires SixHourOnly(ts) && lo < |ts| && !Counted(ts, lo)
    requires DisjointChoice(ts, lo, CoveredUntil(ts, lo), choice)
    ensures DisjointChoice(ts, lo + 1, CoveredUntil(ts, lo + 1), choice)
  {
    assert lo !in choice;
    assert CoveredUntil(ts, lo + 1) == CoveredUntil(ts, lo);
  }

  /** Giving up its first block, a choice is clear of the block the walk counts instead. */
  lemma RestOfChoice(ts: seq<Entry>, lo: nat, choice: set<nat>) returns (rest: set<nat>)
    requires Increasing(ts) && SixHourOnly(ts) && lo < |ts| && Counted(ts, lo)
    requires DisjointChoice(ts, lo, CoveredUntil(ts, lo), choice)
    ensures DisjointChoice(ts, lo + 1, CoveredUntil(ts, lo + 1), rest) && |choice| <= |rest| + 1
  {
    if choice == {} {
      return {};
    }
    var first := Least(choice);
    rest := choice - {first};
    assert ts[lo].at <= ts[first].at;
    assert CoveredUntil(ts, lo + 1) == ts[lo].at + 6 * HOUR;
    forall i | i in rest ensures lo + 1 <= i && ts[i].at >= ts[lo].at + 6 * HOUR {
      assert ts[first].at + 6 * HOUR <= ts[i].at;
    }
  }

  /** Among all ways to pick six-hour blocks without overlap, the walk's is a largest one. */
  lemma WalkIsOptimal(ts: seq<Entry>, choice: set<nat>)
    requires Increasing(ts) && SixHourOnly(ts) && (ts != [] ==> ts[0].at >= 0)
    requires DisjointChoice(ts, 0, if ts == [] then 0 else ts[0].at, choice)
    ensures |choice| <= Count(ts, |ts|)
    ensures Disjoint(ts)
  {
    GreedyStaysAhead(ts, 0, choice);
    UpstreamShapeIsDisjoint(ts, 0);
  }

  ghost function CountedBlocks(ts: seq<Entry>, n: nat): set<nat>
    requires n <= |ts|
  {
    set i: nat | i < n && Counted(ts, i)
  }

  /** The walk's own choice is one of those competing. */
  lemma WalkIsAChoice(ts: seq<Entry>)
    requires Increasing(ts) && SixHourOnly(ts) && (ts != [] ==> ts[0].at >= 0)
    ensures DisjointChoice(ts, 0, if ts == [] then 0 else ts[0].at, CountedBlocks(ts, |ts|))
    ensures |CountedBlocks(ts, |ts|)| == Count(ts, |ts|)
  {
    UpstreamShapeIsDisjoint(ts, 0);
    CountIsSize(ts, |ts|);
    var choice := CountedBlocks(ts, |ts|);
    forall i, j | i in choice && j in choice && i < j ensures ts[i].at + 6 * HOUR <= ts[j].at {
      assert End(ts, i) == ts[i].at + 6 * HOUR;
    }
  }

  lemma {:induction false} CountIsSize(ts: seq<Entry>, n: nat)
    requires n <= |ts|
    ensures |CountedBlocks(ts, n)| == Count(ts, n)
  {
    if n == 0 {
      assert CountedBlocks(ts, n) == {};
    } else {
      CountIsSize(ts, n - 1);
      var before := CountedBlocks(ts, n - 1);
      assert CountedBlocks(ts, n) == if Counted(ts, n - 1) then before + {n - 1} else before;
    }
  }
}
