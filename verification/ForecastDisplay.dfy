/**
 What the days on display look like, in terms of the series alone: in which order they come, which samples
 they show, and in milliseconds when a six-hour block counts.
 */
module ForecastDisplay {
  import opened Wrappers
  import opened Forecast
  import opened ForecastDays

  // ---- blocks --------------------------------------------------------------------------------

  /**
   The rain of the next hour always counts. That of the next six hours counts if and only if it is all there
   is and the last block counted before it, of 3,600,000 or of 21,600,000 milliseconds, has ended by then;
   before the first block the walk stands at 1970.
   */
  lemma BlockCountsIff(ts: seq<Entry>, i: nat) returns (last: int)
    requires i < |ts|
    ensures -1 <= last < i && forall j :: last < j < i ==> Hours(ts, j) == 0
    ensures last >= 0 ==> Hours(ts, last) == if ts[last].h1.Some? then 1 else 6
    ensures Hours(ts, i) == 1 <==> ts[i].h1.Some?
    ensures Hours(ts, i) == 6 <==>
            && ts[i].h1.None? && ts[i].h6.Some?
            && ts[i].at >= if last < 0 then 0
                           else ts[last].at + if ts[last].h1.Some? then 3600000 else 21600000
    ensures Hours(ts, i) == 0 || Hours(ts, i) == 1 || Hours(ts, i) == 6
  {
    last := MarkerIsLastEnd(ts, i);
    forall j | last < j < i ensures Hours(ts, j) == 0 {
      assert !Counted(ts, j);
    }
  }

  // ---- samples -------------------------------------------------------------------------------

  /** The slot shows entry `i`: its local hour, and the rain and length of the block counted for it, if any. */
  ghost predicate ShowsEntry(ts: seq<Entry>, zone: Zone, i: nat, slot: Slot)
    requires i < |ts|
  {
    && slot.entry == ts[i] && slot.hour == zone(ts[i].at).hour && slot.rainHours == Hours(ts, i)
    && (Hours(ts, i) == 0 ==> slot.rain == None)
    && (Hours(ts, i) == 1 ==> slot.rain == ts[i].h1)
    && (Hours(ts, i) == 6 ==> slot.rain == ts[i].h6)
  }

  /** A day's samples are the entries of the series on that day. */
  lemma {:induction false} SlotsAreEntries(ts: seq<Entry>, zone: Zone, day: string, n: nat)
    requires n <= |ts|
    ensures forall slot :: slot in DaySlots(ts, zone, day, n) ==>
              exists i :: 0 <= i < n && zone(ts[i].at).day == day && ShowsEntry(ts, zone, i, slot)
    ensures forall i :: 0 <= i < n && zone(ts[i].at).day == day ==>
              exists slot :: slot in DaySlots(ts, zone, day, n) && ShowsEntry(ts, zone, i, slot)
  {
    if n > 0 {
      SlotsAreEntries(ts, zone, day, n - 1);
      OneMoreForDay(ts, zone, day, n - 1);
      assert ShowsEntry(ts, zone, n - 1, SlotAt(ts, zone, n - 1));
      if zone(ts[n - 1].at).day == day {
        assert SlotAt(ts, zone, n - 1) in DaySlots(ts, zone, day, n);
      }
    }
  }

  /** One of the first `n` entries is on the day. */
  ghost predicate HasOne(ts: seq<Entry>, zone: Zone, day: string, n: nat)
    requires n <= |ts|
  {
    exists i :: 0 <= i < n && DayAt(ts, zone, i) == day
  }

  /** Two of them are. */
  ghost predicate HasTwo(ts: seq<Entry>, zone: Zone, day: string, n: nat)
    requires n <= |ts|
  {
    exists i, j :: 0 <= i < j < n && DayAt(ts, zone, i) == day && DayAt(ts, zone, j) == day
  }

  lemma OneMoreSample(ts: seq<Entry>, zone: Zone, day: string, n: nat)
    requires n < |ts|
    ensures HasOne(ts, zone, day, n + 1) <==> HasOne(ts, zone, day, n) || DayAt(ts, zone, n) == day
    ensures HasTwo(ts, zone, day, n + 1) <==>
            HasTwo(ts, zone, day, n) || (HasOne(ts, zone, day, n) && DayAt(ts, zone, n) == day)
  {
  }

  lemma OneMoreCounted(ts: seq<Entry>, zone: Zone, day: string, n: nat)
    requires n < |ts|
    ensures |DaySlots(ts, zone, day, n + 1)| ==
            |DaySlots(ts, zone, day, n)| + if DayAt(ts, zone, n) == day then 1 else 0
  {
    OneMoreForDay(ts, zone, day, n);
  }

  lemma {:induction false} SamplesAreCounted(ts: seq<Entry>, zone: Zone, day: string, n: nat)
    requires n <= |ts|
    ensures |DaySlots(ts, zone, day, n)| >= 1 <==> HasOne(ts, zone, day, n)
    ensures |DaySlots(ts, zone, day, n)| >= 2 <==> HasTwo(ts, zone, day, n)
  {
    if n == 0 {
      assert DaySlots(ts, zone, day, 0) == [];
    } else {
      SamplesAreCounted(ts, zone, day, n - 1);
      OneMoreCounted(ts, zone, day, n - 1);
      OneMoreSample(ts, zone, day, n - 1);
    }
  }

  /** A day is on display if and only if the series has two samples on it. */
  lemma ShownIffTwoSamples(ts: seq<Entry>, zone: Zone, day: string)
    ensures var days := Days(ts, zone, DayOrder(ts, zone, |ts|));
            (exists d :: d in days && d.day == day) <==> HasTwo(ts, zone, day, |ts|)
  {
    var days, slots := Days(ts, zone, DayOrder(ts, zone, |ts|)), DaySlots(ts, zone, day, |ts|);
    SamplesAreCounted(ts, zone, day, |ts|);
    DisplayIsComplete(ts, zone);
    if |slots| >= 2 {
      assert Day(day, RoundTenth(Rain(slots)), slots) in days;
    }
  }

  // ---- order ---------------------------------------------------------------------------------

  /** Each of these days has a sample, and their first samples follow each other in time. */
  ghost predicate Ascend(ts: seq<Entry>, zone: Zone, order: seq<string>, n: nat)
    requires n <= |ts|
  {
    && (forall a :: 0 <= a < |order| ==> DaySlots(ts, zone, order[a], n) != [])
    && (forall a, b :: 0 <= a < b < |order| ==>
          DaySlots(ts, zone, order[a], n)[0].entry.at < DaySlots(ts, zone, order[b], n)[0].entry.at)
  }

  lemma FirstStays(ts: seq<Entry>, zone: Zone, order: seq<string>, n: nat)
    requires n < |ts| && Ascend(ts, zone, order, n)
    ensures Ascend(ts, zone, order, n + 1)
  {
    forall a | 0 <= a < |order|
      ensures DaySlots(ts, zone, order[a], n + 1) != []
      ensures DaySlots(ts, zone, order[a], n + 1)[0] == DaySlots(ts, zone, order[a], n)[0]
    {
      OneMoreForDay(ts, zone, order[a], n);
    }
  }

  lemma NewDayIsLast(ts: seq<Entry>, zone: Zone, order: seq<string>, n: nat)
    requires Increasing(ts) && n < |ts| && order == DayOrder(ts, zone, n) && DayAt(ts, zone, n) !in order
    requires Ascend(ts, zone, order, n)
    ensures Ascend(ts, zone, order + [DayAt(ts, zone, n)], n + 1)
  {
    var day := DayAt(ts, zone, n);
    DayOrderListsDays(ts, zone, n);
    UnmetDayIsEmpty(ts, zone, day, n);
    OneMoreForDay(ts, zone, day, n);
    FirstStays(ts, zone, order, n);
    forall a | 0 <= a < |order| ensures DaySlots(ts, zone, order[a], n + 1)[0].entry.at < ts[n].at {
      SlotsComeInOrder(ts, zone, order[a], n);
      OneMoreForDay(ts, zone, order[a], n);
    }
  }

  lemma OneMoreDay(ts: seq<Entry>, zone: Zone, n: nat)
    requires Increasing(ts) && n < |ts| && Ascend(ts, zone, DayOrder(ts, zone, n), n)
    ensures Ascend(ts, zone, DayOrder(ts, zone, n + 1), n + 1)
  {
    if DayAt(ts, zone, n) in DayOrder(ts, zone, n) {
      FirstStays(ts, zone, DayOrder(ts, zone, n), n);
    } else {
      NewDayIsLast(ts, zone, DayOrder(ts, zone, n), n);
    }
  }

  lemma {:induction false} DaysAreMetInOrder(ts: seq<Entry>, zone: Zone, n: nat)
    requires Increasing(ts) && n <= |ts|
    ensures Ascend(ts, zone, DayOrder(ts, zone, n), n)
  {
    if n > 0 {
      DaysAreMetInOrder(ts, zone, n - 1);
      OneMoreDay(ts, zone, n - 1);
    }
  }

  ghost predicate DaysAscend(days: seq<Day>) {
    && (forall a :: 0 <= a < |days| ==> days[a].slots != [])
    && (forall a, b :: 0 <= a < b < |days| ==> days[a].slots[0].entry.at < days[b].slots[0].entry.at)
  }

  lemma {:induction false} ShownDaysAscend(ts: seq<Entry>, zone: Zone, order: seq<string>)
    requires Ascend(ts, zone, order, |ts|)
    ensures DaysAscend(Days(ts, zone, order))
    decreases |order|
  {
    if order != [] {
      var init, day := order[..|order| - 1], order[|order| - 1];
      var days := Days(ts, zone, init);
      ShownDaysAscend(ts, zone, init);
      DaysAreShown(ts, zone, init);
      forall a | 0 <= a < |days| ensures days[a].slots[0].entry.at < DaySlots(ts, zone, day, |ts|)[0].entry.at {
        assert days[a] in days;
        var k :| 0 <= k < |init| && init[k] == days[a].day;
        assert order[k] == days[a].day;
      }
    }
  }

  /** The days come in the order of their first samples. */
  lemma DisplayAscends(ts: seq<Entry>, zone: Zone)
    requires Increasing(ts)
    ensures DaysAscend(Days(ts, zone, DayOrder(ts, zone, |ts|)))
  {
    DaysAreMetInOrder(ts, zone, |ts|);
    ShownDaysAscend(ts, zone, DayOrder(ts, zone, |ts|));
  }
}
