/**
 The whole pass over a forecast: it walks the series, files every time step under its local day and
 totals the days. Time zones enter only as a function from instants to local days and hours.
 */
module ForecastDays {
  import opened Wrappers
  import opened Forecast

  /** Calendar day and hour of an instant. */
  datatype Local = Local(day: string, hour: nat)

  type Zone = Millis -> Local

  datatype Slot = Slot(entry: Entry, hour: nat, rain: Option<real>, rainHours: nat)

  datatype Day = Day(day: string, rain: real, slots: seq<Slot>)

  // ---- specification -------------------------------------------------------------------------

  /** The rain of the block counted for an entry, if any. */
  function BlockRain(ts: seq<Entry>, i: nat): Option<real>
    requires i < |ts|
  {
    if ts[i].h1.Some? then ts[i].h1 else if Counted(ts, i) then ts[i].h6 else None
  }

  function SlotAt(ts: seq<Entry>, zone: Zone, i: nat): Slot
    requires i < |ts|
  {
    Slot(ts[i], zone(ts[i].at).hour, BlockRain(ts, i), Hours(ts, i))
  }

  function DayAt(ts: seq<Entry>, zone: Zone, i: nat): string
    requires i < |ts|
  {
    zone(ts[i].at).day
  }

  /** The slots of one day among the first `n` entries, in the order of the series. */
  function DaySlots(ts: seq<Entry>, zone: Zone, day: string, n: nat): seq<Slot>
    requires n <= |ts|
  {
    if n == 0 then []
    else DaySlots(ts, zone, day, n - 1) + (if DayAt(ts, zone, n - 1) == day then [SlotAt(ts, zone, n - 1)] else [])
  }

  /** The days met among the first `n` entries, in the order they are met. */
  function DayOrder(ts: seq<Entry>, zone: Zone, n: nat): seq<string>
    requires n <= |ts|
  {
    if n == 0 then []
    else
      var order := DayOrder(ts, zone, n - 1);
      if DayAt(ts, zone, n - 1) in order then order else order + [DayAt(ts, zone, n - 1)]
  }

  ghost predicate Distinct(order: seq<string>) {
    forall a, b :: 0 <= a < b < |order| ==> order[a] != order[b]
  }

  /** Every day met is listed, once. */
  lemma {:induction false} DayOrderListsDays(ts: seq<Entry>, zone: Zone, n: nat)
    requires n <= |ts|
    ensures Distinct(DayOrder(ts, zone, n))
    ensures forall day :: day in DayOrder(ts, zone, n) <==> exists i :: 0 <= i < n && DayAt(ts, zone, i) == day
  {
    if n > 0 {
      DayOrderListsDays(ts, zone, n - 1);
      assert DayAt(ts, zone, n - 1) in DayOrder(ts, zone, n);
    }
  }

  function Rain(slots: seq<Slot>): real {
    if slots == [] then 0.0
    else Rain(slots[..|slots| - 1]) + RainOf(slots[|slots| - 1].rain)
  }

  function RainOf(rain: Option<real>): real {
    if rain.Some? then rain.value else 0.0
  }

  /** JavaScript's Math.round to one decimal. */
  function RoundTenth(x: real): real {
    (x * 10.0 + 0.5).Floor as real / 10.0
  }

  /** Days with a single sample are left out. */
  function Days(ts: seq<Entry>, zone: Zone, order: seq<string>): seq<Day> {
    if order == [] then []
    else
      var day := order[|order| - 1];
      var slots := DaySlots(ts, zone, day, |ts|);
      Days(ts, zone, order[..|order| - 1]) + (if |slots| < 2 then [] else [Day(day, RoundTenth(Rain(slots)), slots)])
  }

  /** A rounded total is a whole number of tenths, and the nearest one; ties go up. */
  lemma RoundTenthIsNearest(x: real) returns (n: int)
    ensures RoundTenth(x) == n as real / 10.0
    ensures RoundTenth(x) - 0.05 <= x < RoundTenth(x) + 0.05
  {
    n := (x * 10.0 + 0.5).Floor;
    assert n as real <= x * 10.0 + 0.5 < n as real + 1.0;
  }

  /** What a day on display must be: all the samples of its key, at least two, and their rounded total. */
  ghost predicate ShownDay(ts: seq<Entry>, zone: Zone, d: Day) {
    && d.slots == DaySlots(ts, zone, d.day, |ts|)
    && |d.slots| >= 2
    && d.rain == RoundTenth(Rain(d.slots))
  }

  ghost predicate DistinctDays(days: seq<Day>) {
    forall a, b :: 0 <= a < b < |days| ==> days[a].day != days[b].day
  }

  /** The rain behind the displayed totals, before rounding. */
  function UnroundedRain(days: seq<Day>): real {
    if days == [] then 0.0 else UnroundedRain(days[..|days| - 1]) + Rain(days[|days| - 1].slots)
  }

  /** On display are exactly the listed days with two samples or more. */
  lemma {:induction false} DaysAreShown(ts: seq<Entry>, zone: Zone, order: seq<string>)
    ensures forall d :: d in Days(ts, zone, order) <==> d.day in order && ShownDay(ts, zone, d)
    decreases |order|
  {
    if order != [] {
      var init, day := order[..|order| - 1], order[|order| - 1];
      DaysAreShown(ts, zone, init);
      assert order == init + [day];
      var slots := DaySlots(ts, zone, day, |ts|);
      assert forall d :: ShownDay(ts, zone, d) && d.day == day ==> d == Day(day, RoundTenth(Rain(slots)), slots);
    }
  }

  lemma {:induction false} DaysAreDistinct(ts: seq<Entry>, zone: Zone, order: seq<string>)
    requires Distinct(order)
    ensures DistinctDays(Days(ts, zone, order))
    decreases |order|
  {
    if order != [] {
      var init, day := order[..|order| - 1], order[|order| - 1];
      DaysAreDistinct(ts, zone, init);
      DaysAreShown(ts, zone, init);
      assert day !in init;
      var days := Days(ts, zone, init);
      assert forall a :: 0 <= a < |days| ==> days[a] in days && days[a].day != day;
    }
  }

  /** A day with two samples has been met. */
  lemma ShownDayIsListed(ts: seq<Entry>, zone: Zone, d: Day)
    requires ShownDay(ts, zone, d)
    ensures d.day in DayOrder(ts, zone, |ts|)
  {
    DayOrderListsDays(ts, zone, |ts|);
    if d.day !in DayOrder(ts, zone, |ts|) {
      UnmetDayIsEmpty(ts, zone, d.day, |ts|);
    }
  }

  /** The whole display: every day with two samples or more, once. */
  lemma DisplayIsComplete(ts: seq<Entry>, zone: Zone)
    ensures var days := Days(ts, zone, DayOrder(ts, zone, |ts|));
            DistinctDays(days) && forall d :: d in days <==> ShownDay(ts, zone, d)
  {
    var order := DayOrder(ts, zone, |ts|);
    DayOrderListsDays(ts, zone, |ts|);
    DaysAreShown(ts, zone, order);
    DaysAreDistinct(ts, zone, order);
    forall d | ShownDay(ts, zone, d) ensures d.day in order {
      ShownDayIsListed(ts, zone, d);
    }
  }

  // ---- totals in terms of the series ---------------------------------------------------------

  /** Of each entry counts the rain of its next hour, where given, and else that of its six-hour block if it counts. */
  function Amount(ts: seq<Entry>, i: nat): real
    requires i < |ts|
  {
    if ts[i].h1.Some? then ts[i].h1.value
    else if ts[i].h6.Some? && ts[i].at >= CoveredUntil(ts, i) then ts[i].h6.value
    else 0.0
  }

  function Sum(amounts: seq<real>): real {
    if amounts == [] then 0.0 else amounts[0] + Sum(amounts[1..])
  }

  /** The amounts of the first `n` entries, with 0 for those on other days. */
  function AmountsOn(ts: seq<Entry>, zone: Zone, day: string, n: nat): (amounts: seq<real>)
    requires n <= |ts|
    ensures |amounts| == n
  {
    seq(n, i requires 0 <= i < n => if zone(ts[i].at).day == day then Amount(ts, i) else 0.0)
  }

  function Amounts(ts: seq<Entry>, n: nat): (amounts: seq<real>)
    requires n <= |ts|
    ensures |amounts| == n
  {
    seq(n, i requires 0 <= i < n => Amount(ts, i))
  }

  function TotalOn(ts: seq<Entry>, zone: Zone, day: string): real {
    Sum(AmountsOn(ts, zone, day, |ts|))
  }

  lemma {:induction false} SumSnoc(amounts: seq<real>, x: real)
    ensures Sum(amounts + [x]) == Sum(amounts) + x
    decreases |amounts|
  {
    if amounts == [] {
      assert amounts + [x] == [x];
    } else {
      SumSnoc(amounts[1..], x);
      assert (amounts + [x])[1..] == amounts[1..] + [x];
    }
  }

  lemma OneMoreAmount(ts: seq<Entry>, zone: Zone, day: string, n: nat)
    requires n < |ts|
    ensures Sum(AmountsOn(ts, zone, day, n + 1)) ==
            Sum(AmountsOn(ts, zone, day, n)) + (if DayAt(ts, zone, n) == day then Amount(ts, n) else 0.0)
  {
    var x := if DayAt(ts, zone, n) == day then Amount(ts, n) else 0.0;
    assert AmountsOn(ts, zone, day, n + 1) == AmountsOn(ts, zone, day, n) + [x];
    SumSnoc(AmountsOn(ts, zone, day, n), x);
  }

  /** A day grows by the amount of the entry. */
  lemma OneMoreRainOn(ts: seq<Entry>, zone: Zone, day: string, n: nat)
    requires n < |ts|
    ensures Rain(DaySlots(ts, zone, day, n + 1)) ==
            Rain(DaySlots(ts, zone, day, n)) + (if DayAt(ts, zone, n) == day then Amount(ts, n) else 0.0)
  {
    OneDayGrows(ts, zone, day, n);
  }

  /** The rain filed under a day is the total of that day. */
  lemma {:induction false} RainIsTotal(ts: seq<Entry>, zone: Zone, day: string, n: nat)
    requires n <= |ts|
    ensures Rain(DaySlots(ts, zone, day, n)) == Sum(AmountsOn(ts, zone, day, n))
  {
    if n == 0 {
      assert AmountsOn(ts, zone, day, 0) == [];
    } else {
      RainIsTotal(ts, zone, day, n - 1);
      OneMoreRainOn(ts, zone, day, n - 1);
      OneMoreAmount(ts, zone, day, n - 1);
    }
  }

  /** What the walk counts is the total of the amounts. */
  lemma {:induction false} CountedIsTotal(ts: seq<Entry>, n: nat)
    requires n <= |ts|
    ensures CountedRain(ts, n) == Sum(Amounts(ts, n))
  {
    if n > 0 {
      CountedIsTotal(ts, n - 1);
      assert Amounts(ts, n) == Amounts(ts, n - 1) + [Amount(ts, n - 1)];
      SumSnoc(Amounts(ts, n - 1), Amount(ts, n - 1));
    }
  }

  /** A whole number of tenths, and the nearest one; ties go up. */
  ghost predicate NearestTenth(r: real, x: real) {
    (r * 10.0).Floor as real == r * 10.0 && r - 0.05 <= x < r + 0.05
  }

  lemma RoundedIsNearest(x: real)
    ensures NearestTenth(RoundTenth(x), x)
  {
    var n := RoundTenthIsNearest(x);
    assert RoundTenth(x) * 10.0 == n as real;
  }

  lemma ShownTotal(ts: seq<Entry>, zone: Zone, d: Day)
    requires ShownDay(ts, zone, d)
    ensures NearestTenth(d.rain, TotalOn(ts, zone, d.day))
  {
    RainIsTotal(ts, zone, d.day, |ts|);
    RoundedIsNearest(Rain(d.slots));
  }

  // ---- the pass ------------------------------------------------------------------------------

  method ProcessData(ts: seq<Entry>, zone: Zone, now: Millis) returns (days: seq<Day>, todayIdx: nat)
    ensures days == Days(ts, zone, DayOrder(ts, zone, |ts|))
    ensures DistinctDays(days) && forall d :: d in days <==> ShownDay(ts, zone, d)
    ensures forall d :: d in days ==> NearestTenth(d.rain, TotalOn(ts, zone, d.day))
    ensures UnroundedRain(days) + LeftOutRain(ts, zone, DayOrder(ts, zone, |ts|)) == Sum(Amounts(ts, |ts|))
    ensures (exists d :: 0 <= d < |days| && days[d].day == zone(now).day) ==>
              todayIdx < |days| && days[todayIdx].day == zone(now).day
    ensures !(exists d :: 0 <= d < |days| && days[d].day == zone(now).day) ==> todayIdx == 0
  {
    var order, byDay := FileByDay(ts, zone);
    days := Summarise(ts, zone, order, byDay);
    todayIdx := FindDay(days, zone(now).day);
    DisplayIsComplete(ts, zone);
    RainIsConserved(ts, zone);
    forall d | d in days ensures NearestTenth(d.rain, TotalOn(ts, zone, d.day)) {
      ShownTotal(ts, zone, d);
    }
  }

  /** The block counted for one entry, if any, and how far ahead rain has been counted then. */
  method CountBlock(e: Entry, covered: Millis) returns (rain: Option<real>, rainHours: nat, coveredUntil: Millis)
    ensures rainHours == BlockHours(e, covered) && coveredUntil == CoveredAfter(e, covered)
    ensures rain == if e.h1.Some? then e.h1 else if rainHours > 0 then e.h6 else None
  {
    rain, rainHours, coveredUntil := None, 0, covered;
    if e.h1.Some? {
      rain, rainHours := e.h1, 1;
      coveredUntil := e.at + HOUR;
    } else if e.h6.Some? && e.at >= coveredUntil {
      rain, rainHours := e.h6, 6;
      coveredUntil := e.at + 6 * HOUR;
    }
  }

  /** The walk: `coveredUntil` shows how far ahead rain has been counted. */
  method FileByDay(ts: seq<Entry>, zone: Zone) returns (order: seq<string>, byDay: map<string, seq<Slot>>)
    ensures order == DayOrder(ts, zone, |ts|)
    ensures forall day :: day in byDay <==> day in order
    ensures forall day :: day in byDay ==> byDay[day] == DaySlots(ts, zone, day, |ts|)
  {
    order, byDay := [], map[];
    var coveredUntil := 0;
    for i := 0 to |ts|
      invariant coveredUntil == CoveredUntil(ts, i)
      invariant order == DayOrder(ts, zone, i)
      invariant Filed(ts, zone, i, order, byDay)
    {
      var e := ts[i];
      var local := zone(e.at);
      var rain, rainHours;
      rain, rainHours, coveredUntil := CountBlock(e, coveredUntil);
      var slot := Slot(e, local.hour, rain, rainHours);
      SlotOfBlock(ts, zone, i, slot);
      FileOneMore(ts, zone, i, order, byDay);
      order, byDay := PushSlot(order, byDay, local.day, slot);
    }
  }

  /** A day met for the first time gets a list of its own. */
  method PushSlot(order: seq<string>, byDay: map<string, seq<Slot>>, day: string, slot: Slot)
    returns (days: seq<string>, filed: map<string, seq<Slot>>)
    ensures days == if day in byDay then order else order + [day]
    ensures filed == byDay[day := (if day in byDay then byDay[day] else []) + [slot]]
  {
    days, filed := order, byDay;
    if day !in filed {
      days := days + [day];
      filed := filed[day := []];
    }
    filed := filed[day := filed[day] + [slot]];
  }

  lemma SlotOfBlock(ts: seq<Entry>, zone: Zone, i: nat, slot: Slot)
    requires i < |ts| && slot.entry == ts[i] && slot.hour == zone(ts[i].at).hour
    requires slot.rainHours == BlockHours(ts[i], CoveredUntil(ts, i))
    requires slot.rain == if ts[i].h1.Some? then ts[i].h1 else if slot.rainHours > 0 then ts[i].h6 else None
    ensures slot == SlotAt(ts, zone, i)
    ensures CoveredUntil(ts, i + 1) == CoveredAfter(ts[i], CoveredUntil(ts, i))
  {
  }

  /** The table so far: one list per day met, holding that day's slots. */
  ghost predicate Filed(ts: seq<Entry>, zone: Zone, n: nat, order: seq<string>, byDay: map<string, seq<Slot>>)
    requires n <= |ts|
  {
    && (forall day :: day in byDay <==> day in order)
    && (forall day :: day in byDay ==> byDay[day] == DaySlots(ts, zone, day, n))
  }

  lemma OneMoreForDay(ts: seq<Entry>, zone: Zone, day: string, n: nat)
    requires n < |ts|
    ensures DaySlots(ts, zone, day, n + 1) ==
            if DayAt(ts, zone, n) == day then DaySlots(ts, zone, day, n) + [SlotAt(ts, zone, n)]
            else DaySlots(ts, zone, day, n)
  {
    assert DaySlots(ts, zone, day, n) + [] == DaySlots(ts, zone, day, n);
  }

  lemma EntryOfDay(ts: seq<Entry>, zone: Zone, n: nat, order: seq<string>, byDay: map<string, seq<Slot>>)
    requires n < |ts| && order == DayOrder(ts, zone, n) && Filed(ts, zone, n, order, byDay)
    ensures var day := DayAt(ts, zone, n);
            DaySlots(ts, zone, day, n + 1) == (if day in byDay then byDay[day] else []) + [SlotAt(ts, zone, n)]
  {
    var day := DayAt(ts, zone, n);
    OneMoreForDay(ts, zone, day, n);
    if day !in byDay {
      DayOrderListsDays(ts, zone, n);
      UnmetDayIsEmpty(ts, zone, day, n);
    }
  }

  lemma FileOneMore(ts: seq<Entry>, zone: Zone, n: nat, order: seq<string>, byDay: map<string, seq<Slot>>)
    requires n < |ts| && order == DayOrder(ts, zone, n) && Filed(ts, zone, n, order, byDay)
    ensures var day, slot := DayAt(ts, zone, n), SlotAt(ts, zone, n);
            Filed(ts, zone, n + 1, DayOrder(ts, zone, n + 1),
                  byDay[day := (if day in byDay then byDay[day] else []) + [slot]])
  {
    EntryOfDay(ts, zone, n, order, byDay);
    forall d | d in byDay && d != DayAt(ts, zone, n) ensures DaySlots(ts, zone, d, n + 1) == byDay[d] {
      OneMoreForDay(ts, zone, d, n);
    }
  }

  method Summarise(ts: seq<Entry>, zone: Zone, order: seq<string>, byDay: map<string, seq<Slot>>)
    returns (days: seq<Day>)
    requires forall day :: day in order ==> day in byDay && byDay[day] == DaySlots(ts, zone, day, |ts|)
    ensures days == Days(ts, zone, order)
    ensures forall d :: d in days <==> d.day in order && ShownDay(ts, zone, d)
  {
    days := [];
    for i := 0 to |order|
      invariant days == Days(ts, zone, order[..i])
    {
      DaysSnoc(ts, zone, order, i);
      var slots := byDay[order[i]];
      if |slots| >= 2 {
        var rain := TotalRain(slots);
        days := days + [Day(order[i], RoundTenth(rain), slots)];
      }
    }
    assert order[..|order|] == order;
    DaysAreShown(ts, zone, order);
  }

  lemma DaysSnoc(ts: seq<Entry>, zone: Zone, order: seq<string>, i: nat)
    requires i < |order|
    ensures var slots := DaySlots(ts, zone, order[i], |ts|);
            Days(ts, zone, order[..i + 1]) ==
            if |slots| < 2 then Days(ts, zone, order[..i])
            else Days(ts, zone, order[..i]) + [Day(order[i], RoundTenth(Rain(slots)), slots)]
  {
    assert order[..i + 1][..i] == order[..i];
    assert Days(ts, zone, order[..i]) + [] == Days(ts, zone, order[..i]);
  }

  method TotalRain(slots: seq<Slot>) returns (sum: real)
    ensures sum == Rain(slots)
  {
    sum := 0.0;
    for i := 0 to |slots|
      invariant sum == Rain(slots[..i])
    {
      assert slots[..i + 1][..i] == slots[..i];
      sum := sum + (if slots[i].rain.Some? then slots[i].rain.value else 0.0);
    }
    assert slots[..|slots|] == slots;
  }

  method FindDay(days: seq<Day>, day: string) returns (idx: nat)
    ensures (exists d :: 0 <= d < |days| && days[d].day == day) ==> idx < |days| && days[idx].day == day
    ensures !(exists d :: 0 <= d < |days| && days[d].day == day) ==> idx == 0
  {
    for i := 0 to |days|
      invariant forall d :: 0 <= d < i ==> days[d].day != day
    {
      if days[i].day == day {
        return i;
      }
    }
    return 0;
  }

  // ---- conservation --------------------------------------------------------------------------

  /** All rain counted by the walk among the first `n` entries. Time zones play no part. */
  function CountedRain(ts: seq<Entry>, n: nat): real
    requires n <= |ts|
  {
    if n == 0 then 0.0 else CountedRain(ts, n - 1) + RainOf(BlockRain(ts, n - 1))
  }

  function RainOfDays(ts: seq<Entry>, zone: Zone, order: seq<string>, n: nat): real
    requires n <= |ts|
  {
    if order == [] then 0.0
    else RainOfDays(ts, zone, order[..|order| - 1], n) + Rain(DaySlots(ts, zone, order[|order| - 1], n))
  }

  /** The slots of all listed days together. */
  function SlotsOfDays(ts: seq<Entry>, zone: Zone, order: seq<string>, n: nat): seq<Slot>
    requires n <= |ts|
  {
    if order == [] then []
    else SlotsOfDays(ts, zone, order[..|order| - 1], n) + DaySlots(ts, zone, order[|order| - 1], n)
  }

  /** The slots of the first `n` entries, one each. */
  function AllSlots(ts: seq<Entry>, zone: Zone, n: nat): seq<Slot>
    requires n <= |ts|
  {
    if n == 0 then [] else AllSlots(ts, zone, n - 1) + [SlotAt(ts, zone, n - 1)]
  }

  lemma RainSnoc(slots: seq<Slot>, x: Slot)
    ensures Rain(slots + [x]) == Rain(slots) + RainOf(x.rain)
    ensures Rain(slots + []) == Rain(slots)
  {
    assert (slots + [x])[..|slots|] == slots;
    assert slots + [] == slots;
  }

  lemma OneDayGrows(ts: seq<Entry>, zone: Zone, day: string, n: nat)
    requires n < |ts|
    ensures Rain(DaySlots(ts, zone, day, n + 1)) == Rain(DaySlots(ts, zone, day, n))
              + (if DayAt(ts, zone, n) == day then RainOf(BlockRain(ts, n)) else 0.0)
    ensures multiset(DaySlots(ts, zone, day, n + 1)) == multiset(DaySlots(ts, zone, day, n))
              + (if DayAt(ts, zone, n) == day then multiset{SlotAt(ts, zone, n)} else multiset{})
  {
    RainSnoc(DaySlots(ts, zone, day, n), SlotAt(ts, zone, n));
  }

  /** One more entry adds its rain to the one day it belongs to. */
  lemma {:induction false} OneMoreRain(ts: seq<Entry>, zone: Zone, order: seq<string>, n: nat)
    requires n < |ts| && Distinct(order)
    ensures RainOfDays(ts, zone, order, n + 1) == RainOfDays(ts, zone, order, n)
              + (if DayAt(ts, zone, n) in order then RainOf(BlockRain(ts, n)) else 0.0)
    decreases |order|
  {
    if order != [] {
      var init, day := order[..|order| - 1], order[|order| - 1];
      OneMoreRain(ts, zone, init, n);
      OneDayGrows(ts, zone, day, n);
      assert DayAt(ts, zone, n) in order <==> DayAt(ts, zone, n) in init || DayAt(ts, zone, n) == day;
      assert day !in init;
    }
  }

  lemma SlotsOfLast(ts: seq<Entry>, zone: Zone, order: seq<string>, n: nat)
    requires order != [] && n <= |ts|
    ensures multiset(SlotsOfDays(ts, zone, order, n)) ==
            multiset(SlotsOfDays(ts, zone, order[..|order| - 1], n))
            + multiset(DaySlots(ts, zone, order[|order| - 1], n))
  {
  }

  /** One more entry adds itself to the one day it belongs to. */
  lemma {:induction false} OneMoreSlot(ts: seq<Entry>, zone: Zone, order: seq<string>, n: nat)
    requires n < |ts| && Distinct(order)
    ensures multiset(SlotsOfDays(ts, zone, order, n + 1)) == multiset(SlotsOfDays(ts, zone, order, n))
              + (if DayAt(ts, zone, n) in order then multiset{SlotAt(ts, zone, n)} else multiset{})
    decreases |order|
  {
    if order != [] {
      var init, day := order[..|order| - 1], order[|order| - 1];
      OneMoreSlot(ts, zone, init, n);
      OneDayGrows(ts, zone, day, n);
      SlotsOfLast(ts, zone, order, n);
      SlotsOfLast(ts, zone, order, n + 1);
      assert DayAt(ts, zone, n) in order <==> DayAt(ts, zone, n) in init || DayAt(ts, zone, n) == day;
      assert day !in init;
    }
  }

  lemma {:induction false} UnmetDayIsEmpty(ts: seq<Entry>, zone: Zone, day: string, n: nat)
    requires n <= |ts| && forall i :: 0 <= i < n ==> DayAt(ts, zone, i) != day
    ensures DaySlots(ts, zone, day, n) == []
  {
    if n > 0 {
      UnmetDayIsEmpty(ts, zone, day, n - 1);
    }
  }

  lemma {:induction false} NothingFiledYet(ts: seq<Entry>, zone: Zone, order: seq<string>)
    ensures RainOfDays(ts, zone, order, 0) == 0.0 && SlotsOfDays(ts, zone, order, 0) == []
    decreases |order|
  {
    if order != [] {
      NothingFiledYet(ts, zone, order[..|order| - 1]);
    }
  }

  ghost predicate Lists(ts: seq<Entry>, zone: Zone, order: seq<string>, n: nat)
    requires n <= |ts|
  {
    Distinct(order) && forall i :: 0 <= i < n ==> DayAt(ts, zone, i) in order
  }

  lemma FewerStayListed(ts: seq<Entry>, zone: Zone, order: seq<string>, n: nat)
    requires n < |ts| && Lists(ts, zone, order, n + 1)
    ensures Lists(ts, zone, order, n) && DayAt(ts, zone, n) in order
  {
  }

  lemma ListedRainGrows(ts: seq<Entry>, zone: Zone, order: seq<string>, n: nat)
    requires n < |ts| && Distinct(order) && DayAt(ts, zone, n) in order
    ensures RainOfDays(ts, zone, order, n + 1) == RainOfDays(ts, zone, order, n) + RainOf(BlockRain(ts, n))
  {
    OneMoreRain(ts, zone, order, n);
  }

  lemma ListedSlotsGrow(ts: seq<Entry>, zone: Zone, order: seq<string>, n: nat)
    requires n < |ts| && Distinct(order) && DayAt(ts, zone, n) in order
    ensures multiset(SlotsOfDays(ts, zone, order, n + 1)) ==
            multiset(SlotsOfDays(ts, zone, order, n)) + multiset{SlotAt(ts, zone, n)}
  {
    OneMoreSlot(ts, zone, order, n);
  }

  /** Days listed once each hold all the rain there is, once. */
  lemma {:induction false} RainPartition(ts: seq<Entry>, zone: Zone, order: seq<string>, n: nat)
    requires n <= |ts| && Lists(ts, zone, order, n)
    ensures RainOfDays(ts, zone, order, n) == CountedRain(ts, n)
  {
    if n == 0 {
      NothingFiledYet(ts, zone, order);
    } else {
      FewerStayListed(ts, zone, order, n - 1);
      ListedRainGrows(ts, zone, order, n - 1);
      RainPartition(ts, zone, order, n - 1);
    }
  }

  /** Days listed once each hold every entry, once. */
  lemma {:induction false} EntryPartition(ts: seq<Entry>, zone: Zone, order: seq<string>, n: nat)
    requires n <= |ts| && Lists(ts, zone, order, n)
    ensures multiset(SlotsOfDays(ts, zone, order, n)) == multiset(AllSlots(ts, zone, n))
  {
    if n == 0 {
      NothingFiledYet(ts, zone, order);
    } else {
      FewerStayListed(ts, zone, order, n - 1);
      ListedSlotsGrow(ts, zone, order, n - 1);
      EntryPartition(ts, zone, order, n - 1);
    }
  }

  /** Whatever the zone, the days together hold the slot of every entry, once, and all the rain counted. */
  lemma AllDaysPartition(ts: seq<Entry>, zone: Zone)
    ensures multiset(SlotsOfDays(ts, zone, DayOrder(ts, zone, |ts|), |ts|)) == multiset(AllSlots(ts, zone, |ts|))
    ensures RainOfDays(ts, zone, DayOrder(ts, zone, |ts|), |ts|) == Sum(Amounts(ts, |ts|))
  {
    CountedIsTotal(ts, |ts|);
    DayOrderListsDays(ts, zone, |ts|);
    RainPartition(ts, zone, DayOrder(ts, zone, |ts|), |ts|);
    EntryPartition(ts, zone, DayOrder(ts, zone, |ts|), |ts|);
  }

  ghost predicate OfDay(slots: seq<Slot>, zone: Zone, day: string) {
    forall a :: 0 <= a < |slots| ==> zone(slots[a].entry.at).day == day
  }

  ghost predicate InTimeOrder(slots: seq<Slot>) {
    forall a, b :: 0 <= a < b < |slots| ==> slots[a].entry.at < slots[b].entry.at
  }

  ghost predicate AllBefore(slots: seq<Slot>, t: Millis) {
    forall a :: 0 <= a < |slots| ==> slots[a].entry.at < t
  }

  lemma AppendInOrder(slots: seq<Slot>, x: Slot, zone: Zone, day: string, t: Millis)
    requires OfDay(slots, zone, day) && InTimeOrder(slots) && AllBefore(slots, x.entry.at)
    requires zone(x.entry.at).day == day && x.entry.at < t
    ensures OfDay(slots + [x], zone, day) && InTimeOrder(slots + [x]) && AllBefore(slots + [x], t)
  {
  }

  /** The slots of a day all lie on it, in the order of the series. */
  lemma {:induction false} SlotsComeInOrder(ts: seq<Entry>, zone: Zone, day: string, n: nat)
    requires Increasing(ts) && n <= |ts|
    ensures OfDay(DaySlots(ts, zone, day, n), zone, day) && InTimeOrder(DaySlots(ts, zone, day, n))
    ensures n < |ts| ==> AllBefore(DaySlots(ts, zone, day, n), ts[n].at)
  {
    if n > 0 {
      SlotsComeInOrder(ts, zone, day, n - 1);
      OneMoreForDay(ts, zone, day, n - 1);
      if DayAt(ts, zone, n - 1) == day {
        var next := if n < |ts| then ts[n].at else ts[n - 1].at + 1;
        AppendInOrder(DaySlots(ts, zone, day, n - 1), SlotAt(ts, zone, n - 1), zone, day, next);
      }
    }
  }

  /** Rain of the listed days that are not on display. */
  function LeftOutRain(ts: seq<Entry>, zone: Zone, order: seq<string>): real {
    if order == [] then 0.0
    else
      var slots := DaySlots(ts, zone, order[|order| - 1], |ts|);
      LeftOutRain(ts, zone, order[..|order| - 1]) + (if |slots| == 1 then Rain(slots) else 0.0)
  }

  lemma UnroundedSnoc(days: seq<Day>, d: Day)
    ensures UnroundedRain(days + [d]) == UnroundedRain(days) + Rain(d.slots)
    ensures UnroundedRain(days + []) == UnroundedRain(days)
  {
    assert (days + [d])[..|days|] == days;
    assert days + [] == days;
  }

  /** A day with neither one sample nor more has no rain. */
  lemma {:induction false} ShownAndLeftOut(ts: seq<Entry>, zone: Zone, order: seq<string>)
    ensures UnroundedRain(Days(ts, zone, order)) + LeftOutRain(ts, zone, order) == RainOfDays(ts, zone, order, |ts|)
    decreases |order|
  {
    if order != [] {
      var init, day := order[..|order| - 1], order[|order| - 1];
      var slots := DaySlots(ts, zone, day, |ts|);
      ShownAndLeftOut(ts, zone, init);
      UnroundedSnoc(Days(ts, zone, init), Day(day, RoundTenth(Rain(slots)), slots));
    }
  }

  /**
   Conservation, whatever the time zone: the unrounded totals of the days returned and of the one-sample
   days left out add up to all the rain the walk counted.
   */
  lemma RainIsConserved(ts: seq<Entry>, zone: Zone)
    ensures var order := DayOrder(ts, zone, |ts|);
            UnroundedRain(Days(ts, zone, order)) + LeftOutRain(ts, zone, order) == Sum(Amounts(ts, |ts|))
  {
    CountedIsTotal(ts, |ts|);
    AllDaysPartition(ts, zone);
    ShownAndLeftOut(ts, zone, DayOrder(ts, zone, |ts|));
  }

  /** Which blocks count, and their total, are the same in every time zone. */
  lemma ZonesAgree(ts: seq<Entry>, here: Zone, there: Zone)
    ensures forall i :: 0 <= i < |ts| ==>
              && SlotAt(ts, here, i).rain == SlotAt(ts, there, i).rain
              && SlotAt(ts, here, i).rainHours == SlotAt(ts, there, i).rainHours
    ensures RainOfDays(ts, here, DayOrder(ts, here, |ts|), |ts|) ==
            RainOfDays(ts, there, DayOrder(ts, there, |ts|), |ts|)
  {
    AllDaysPartition(ts, here);
    AllDaysPartition(ts, there);
  }
}
