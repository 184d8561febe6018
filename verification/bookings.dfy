/**
 * The booking records the widget keeps under the `bookings` storage key, the
 * fixed service catalog and daily slots, and the availability rules read
 * from the stored records: the fully-booked count, the booked-times filter
 * and the weekly rest days.
 */
module Bookings {
  import opened Maybe
  import opened Text
  import opened Civil
  import opened BookingFormat

  datatype ServiceId = Consultation | Technical | Business | Training

  /** A catalog entry: display name, price and length in minutes. */
  datatype Service = Service(name: string, price: nat, duration: nat)

  /** `services`: the catalog a booking copies its name and price from. */
  function ServiceOf(id: ServiceId): Service {
    match id
    case Consultation => Service("استشارة عامة", 150, 30)
    case Technical => Service("استشارة تقنية", 250, 60)
    case Business => Service("استشارة أعمال", 350, 90)
    case Training => Service("تدريب شخصي", 500, 120)
  }

  /** `timeSlots`: the bookable hours of a day, 13:00 left out. */
  const TimeSlots: seq<string> := ["09:00", "10:00", "11:00", "12:00", "14:00", "15:00", "16:00", "17:00"]

  /** `slotDuration`, declared in minutes; nothing reads it. */
  const SlotDuration: nat := 60

  /** The status values a stored booking may carry. The stored list can hold
      any of them; the widget writes only `Confirmed` and filters out only
      `Cancelled`. */
  datatype Status = Confirmed | Pending | Cancelled | Completed

  datatype Customer = Customer(name: string, email: string, phone: string, notes: string)

  /** One stored booking. `date` is a `YYYY-MM-DD` key, `time` a slot label;
      `serviceName` and `price` are copies taken from the catalog. */
  datatype Booking = Booking(
    id: int,
    date: string,
    time: string,
    service: ServiceId,
    serviceName: string,
    price: nat,
    customer: Customer,
    status: Status,
    createdAt: string)

  /** The positions of the stored bookings whose date key is `date`. */
  ghost function PositionsOn(bookings: seq<Booking>, date: string): set<int> {
    set i | 0 <= i < |bookings| && bookings[i].date == date
  }

  /** The bookings whose date key is `date`, in stored order, whatever their
      status: one entry per stored booking on that date, duplicates kept. */
  function OnDate(bookings: seq<Booking>, date: string): (r: seq<Booking>)
    ensures |r| <= |bookings|
    ensures |r| == |PositionsOn(bookings, date)|
    ensures forall b :: b in r <==> b in bookings && b.date == date
  {
    if |bookings| == 0 then []
    else
      var last := bookings[|bookings| - 1];
      var init := bookings[..|bookings| - 1];
      assert bookings == init + [last];
      PositionsOnLast(bookings, date);
      OnDate(init, date) + (if last.date == date then [last] else [])
  }

  lemma PositionsOnLast(bookings: seq<Booking>, date: string)
    requires |bookings| > 0
    ensures var n := |bookings| - 1;
      |PositionsOn(bookings, date)| == |PositionsOn(bookings[..n], date)| + (if bookings[n].date == date then 1 else 0)
  {
    var n := |bookings| - 1;
    var init := bookings[..n];
    var before := PositionsOn(init, date);
    var added: set<int> := if bookings[n].date == date then {n} else {};
    forall i
      ensures i in PositionsOn(bookings, date) <==> i in before || i in added
    {
      if 0 <= i < n {
        assert init[i] == bookings[i];
      }
    }
    assert PositionsOn(bookings, date) == before + added;
    assert n !in before;
  }

  /** `isFullyBooked(year, month, day)`: at least as many stored bookings on
      the day as there are slots. Cancelled bookings count. */
  predicate IsFullyBooked(bookings: seq<Booking>, d: Date) {
    |OnDate(bookings, FormatDate(d))| >= |TimeSlots|
  }

  /** Some stored booking on `date` that is not cancelled holds `time`. */
  ghost predicate HeldBy(bookings: seq<Booking>, date: string, time: string) {
    exists i :: 0 <= i < |bookings| && bookings[i].date == date && bookings[i].status != Cancelled && bookings[i].time == time
  }

  /** The `bookedTimes` of `updateTimeSlots`: the slot of every booking on
      `date` that is not cancelled, in stored order. */
  function BookedTimes(bookings: seq<Booking>, date: string): (times: seq<string>)
    ensures |times| <= |OnDate(bookings, date)|
    ensures forall t :: t in times <==> HeldBy(bookings, date, t)
  {
    if |bookings| == 0 then []
    else
      var n := |bookings| - 1;
      var last := bookings[n];
      HeldByLast(bookings, date);
      BookedTimes(bookings[..n], date) + (if last.date == date && last.status != Cancelled then [last.time] else [])
  }

  lemma HeldByLast(bookings: seq<Booking>, date: string)
    requires |bookings| > 0
    ensures var n := |bookings| - 1; var b := bookings[n];
      forall t :: HeldBy(bookings, date, t) <==>
        HeldBy(bookings[..n], date, t) || (b.date == date && b.status != Cancelled && b.time == t)
  {
    var n := |bookings| - 1;
    var init := bookings[..n];
    forall t | HeldBy(init, date, t)
      ensures HeldBy(bookings, date, t)
    {
      var i :| 0 <= i < |init| && init[i].date == date && init[i].status != Cancelled && init[i].time == t;
      assert bookings[i] == init[i];
    }
    forall t | HeldBy(bookings, date, t)
      ensures HeldBy(init, date, t) || (bookings[n].date == date && bookings[n].status != Cancelled && bookings[n].time == t)
    {
      var i :| 0 <= i < |bookings| && bookings[i].date == date && bookings[i].status != Cancelled && bookings[i].time == t;
      if i < n {
        assert init[i] == bookings[i];
      }
    }
  }

  /** A slot shows as booked on `date` when a booking that is not cancelled
      holds it. */
  predicate IsSlotTaken(bookings: seq<Booking>, date: string, time: string) {
    time in BookedTimes(bookings, date)
  }

  /** `isUnavailable(year, month, day)`: Fridays and Saturdays are rest days. */
  predicate IsRestDay(d: Date)
    requires d.month < 12
  {
    Weekday(d) == 5 || Weekday(d) == 6
  }

  /** What `updateTimeSlots` shows for one slot. */
  datatype SlotView = SlotView(time: string, shown: Clock12, taken: bool)

  /** `updateTimeSlots()`: nothing while no date is selected; otherwise every
      slot in order, labelled by `formatTime` and marked taken exactly when a
      booking that is not cancelled holds it on the selected date. */
  function TimeSlotViews(bookings: seq<Booking>, selected: Option<Date>): (views: Option<seq<SlotView>>)
    ensures selected.None? <==> views.None?
    ensures selected.Some? ==> |views.value| == |TimeSlots|
    ensures selected.Some? ==> forall i :: 0 <= i < |TimeSlots| ==>
      && views.value[i].time == TimeSlots[i]
      && (views.value[i].taken <==> HeldBy(bookings, FormatDate(selected.value), TimeSlots[i]))
  {
    match selected
    case None => None
    case Some(d) =>
      var date := FormatDate(d);
      Some(seq(|TimeSlots|, i requires 0 <= i < |TimeSlots| =>
        SlotView(TimeSlots[i], FormatTime(TimeSlots[i]), IsSlotTaken(bookings, date, TimeSlots[i]))))
  }

  // ----- properties of the availability rules -----

  /** Every slot is displayed as a whole hour between 1 and 12. */
  lemma SlotsShowTwelveHourClock()
    ensures forall i :: 0 <= i < |TimeSlots| ==>
      var c := FormatTime(TimeSlots[i]);
      && c.minutes == Some("00")
      && c.hour.Int? && 1 <= c.hour.i <= 12
      && (c.marker == Morning <==> i < 3)
      && (c.marker == Noon <==> i == 3)
  {
    var hours := [9, 10, 11, 12, 14, 15, 16, 17];
    forall i | 0 <= i < |TimeSlots|
      ensures var c := FormatTime(TimeSlots[i]);
        && c.minutes == Some("00")
        && c.hour.Int? && 1 <= c.hour.i <= 12
        && (c.marker == Morning <==> i < 3)
        && (c.marker == Noon <==> i == 3)
    {
      assert TimeSlots[i] == Pad2(hours[i]) + ":" + "00";
      FormatTimeOf24h(hours[i], "00");
    }
  }

  /** The weekday `i` days after a day of the month. */
  lemma WeekdayAfter(y: nat, m: nat, day: nat, i: nat)
    requires m < 12 && 1 <= day
    ensures Weekday(Date(y, m, day + i)) == (Weekday(Date(y, m, day)) + i) % 7
  {
    WeekdayOfDay(y, m, day);
    WeekdayOfDay(y, m, day + i);
    ModSevenShift(Weekday(Date(y, m, 1)) + day - 1, i);
  }

  /** Any seven consecutive days of a month hold exactly two rest days,
      six days apart or one day apart (a Friday and the Saturday after it). */
  lemma TwoRestDaysAWeek(y: nat, m: nat, day: nat)
    requires m < 12 && 1 <= day
    ensures |set k | day <= k < day + 7 && IsRestDay(Date(y, m, k))| == 2
  {
    var w := Weekday(Date(y, m, day));
    var friday := day + (12 - w) % 7;
    var saturday := day + (13 - w) % 7;
    var rest := set k | day <= k < day + 7 && IsRestDay(Date(y, m, k));
    forall k
      ensures k in rest <==> k == friday || k == saturday
    {
      if day <= k < day + 7 {
        WeekdayAfter(y, m, day, k - day);
        RestOffset(w, k - day);
      }
    }
    assert rest == {friday, saturday};
  }

  /** Within one week starting on weekday `w`, the offsets of the Friday and
      the Saturday. */
  lemma RestOffset(w: nat, i: nat)
    requires w < 7 && i < 7
    ensures (w + i) % 7 == 5 || (w + i) % 7 == 6 <==> i == (12 - w) % 7 || i == (13 - w) % 7
  {
    assert (w + i) % 7 == if w + i < 7 then w + i else w + i - 7;
    assert (12 - w) % 7 == if w <= 5 then 5 - w else 12 - w;
    assert (13 - w) % 7 == if w <= 6 then 6 - w else 13 - w;
  }

  lemma {:induction false} OnDateAppend(bookings: seq<Booking>, b: Booking, date: string)
    ensures OnDate(bookings + [b], date) == OnDate(bookings, date) + (if b.date == date then [b] else [])
  {
    assert (bookings + [b])[..|bookings|] == bookings;
  }

  /** Storing one more booking never turns a fully booked day back into one
      that is not. */
  lemma FullyBookedStaysFull(bookings: seq<Booking>, b: Booking, d: Date)
    requires IsFullyBooked(bookings, d)
    ensures IsFullyBooked(bookings + [b], d)
  {
    OnDateAppend(bookings, b, FormatDate(d));
  }

  /** Storing a cancelled booking changes no slot's availability. */
  lemma CancelledNeverBlocks(bookings: seq<Booking>, b: Booking, date: string)
    requires b.status == Cancelled
    ensures BookedTimes(bookings + [b], date) == BookedTimes(bookings, date)
  {
    assert (bookings + [b])[..|bookings|] == bookings;
  }

  /** Storing a booking that is not cancelled takes its slot on its date. */
  lemma StoredBookingTakesSlot(bookings: seq<Booking>, b: Booking)
    requires b.status != Cancelled
    ensures IsSlotTaken(bookings + [b], b.date, b.time)
  {
    var all := bookings + [b];
    assert all[|bookings|] == b;
  }

  lemma {:induction false} DistinctCount<T>(s: seq<T>)
    ensures |set x | x in s| <= |s|
  {
    if |s| > 0 {
      var init := s[..|s| - 1];
      DistinctCount(init);
      assert s == init + [s[|s| - 1]];
      assert (set x | x in s) == (set x | x in init) + {s[|s| - 1]};
    }
  }

  lemma SlotSetSize()
    ensures |set t | t in TimeSlots| == |TimeSlots|
  {
    forall i, j | 0 <= i < j < |TimeSlots|
      ensures TimeSlots[i] != TimeSlots[j]
    {
      assert TimeSlots[i][1] != TimeSlots[j][1] || TimeSlots[i][0] != TimeSlots[j][0];
    }
    DistinctSetSize(TimeSlots);
  }

  /** A sequence without repeats has as many distinct elements as entries. */
  lemma {:induction false} DistinctSetSize<T>(s: seq<T>)
    requires forall i, j :: 0 <= i < j < |s| ==> s[i] != s[j]
    ensures |set x | x in s| == |s|
  {
    if |s| > 0 {
      var n := |s| - 1;
      var init := s[..n];
      DistinctSetSize(init);
      assert s == init + [s[n]];
      assert s[n] !in init;
      assert (set x | x in s) == (set x | x in init) + {s[n]};
    }
  }

  /** When every slot of a day is taken the day counts as fully booked: each
      slot needs a booking of its own on that day. */
  lemma AllSlotsTakenIsFullyBooked(bookings: seq<Booking>, d: Date)
    requires forall i :: 0 <= i < |TimeSlots| ==> IsSlotTaken(bookings, FormatDate(d), TimeSlots[i])
    ensures IsFullyBooked(bookings, d)
  {
    var times := BookedTimes(bookings, FormatDate(d));
    var slots := set t | t in TimeSlots;
    assert slots <= set t | t in times;
    SlotSetSize();
    DistinctCount(times);
    SubsetSize(slots, set t | t in times);
  }

  lemma {:induction false} SubsetSize<T>(a: set<T>, b: set<T>)
    requires a <= b
    ensures |a| <= |b|
  {
    if a != {} {
      var x :| x in a;
      SubsetSize(a - {x}, b - {x});
    }
  }

  /** The count also includes cancelled bookings: eight or more bookings on
      a day, all of them cancelled, make it fully booked although every one
      of its slots is free, whatever is stored for other days. */
  lemma CancelledBookingsFillDay(bookings: seq<Booking>, d: Date)
    requires |PositionsOn(bookings, FormatDate(d))| >= |TimeSlots|
    requires forall i :: 0 <= i < |bookings| && bookings[i].date == FormatDate(d) ==> bookings[i].status == Cancelled
    ensures IsFullyBooked(bookings, d)
    ensures forall t :: !IsSlotTaken(bookings, FormatDate(d), t)
  {
  }
}
