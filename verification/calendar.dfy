/**
 * The month grid of the booking calendar (`renderCalendar`): six weeks of
 * seven cells, the tail of the previous month, every day of the shown month
 * with its classification, and the head of the next month.
 */
module Calendar {
  import opened Civil
  import opened Bookings

  /** How a day of the shown month is drawn. Only `Selectable` days get a
      click handler; `RestDay` and `FullyBooked` share one look. */
  datatype DayStatus = Past | Today | RestDay | FullyBooked | Selectable

  datatype Cell = OtherMonth(day: nat) | MonthDay(day: nat, status: DayStatus)

  /** The number of cells the grid always has. */
  const GridCells: nat := 42

  /** The first test that holds decides: before today, today, a rest day,
      fully booked; otherwise the day can be chosen. */
  function Classify(bookings: seq<Booking>, today: Date, d: Date): DayStatus
    requires d.month < 12
  {
    if Before(d, today) then Past
    else if d == today then Today
    else if IsRestDay(d) then RestDay
    else if IsFullyBooked(bookings, d) then FullyBooked
    else Selectable
  }

  /** The classification as a priority list: each status holds exactly when
      its own test holds and no earlier test does. */
  lemma ClassifyPriority(bookings: seq<Booking>, today: Date, d: Date)
    requires d.month < 12
    ensures Classify(bookings, today, d) == Past <==> Before(d, today)
    ensures Classify(bookings, today, d) == Today <==> d == today
    ensures Classify(bookings, today, d) == RestDay <==> !Before(d, today) && d != today && IsRestDay(d)
    ensures Classify(bookings, today, d) == FullyBooked <==>
      !Before(d, today) && d != today && !IsRestDay(d) && IsFullyBooked(bookings, d)
    ensures Classify(bookings, today, d) == Selectable <==>
      !Before(d, today) && d != today && !IsRestDay(d) && !IsFullyBooked(bookings, d)
  {
  }

  /** Storing another booking can take a day out of the selectable ones but
      never makes a day selectable. */
  lemma StoringNeverFreesADay(bookings: seq<Booking>, b: Booking, today: Date, d: Date)
    requires d.month < 12
    requires Classify(bookings + [b], today, d) == Selectable
    ensures Classify(bookings, today, d) == Selectable
  {
    if IsFullyBooked(bookings, d) {
      FullyBookedStaysFull(bookings, b, d);
    }
  }

  /** `renderCalendar()` for the month `month` of `year`: `first` leading
      cells counting up to the last day of the previous month, one cell per
      day of the month in order, and the next month's first days up to 42
      cells. Every day of the month lands in the column of its weekday. */
  method RenderCalendar(year: nat, month: nat, today: Date, bookings: seq<Booking>) returns (cells: seq<Cell>)
    requires month < 12
    ensures |cells| == GridCells
    ensures var first := Weekday(Date(year, month, 1)); var prev := PrevMonthDays(year, month);
      forall k :: 0 <= k < first ==> cells[k] == OtherMonth(prev - first + 1 + k)
    ensures var first := Weekday(Date(year, month, 1));
      forall day :: 1 <= day <= DaysInMonth(year, month) ==>
        && cells[first + day - 1] == MonthDay(day, Classify(bookings, today, Date(year, month, day)))
        && (first + day - 1) % 7 == Weekday(Date(year, month, day))
    ensures var first := Weekday(Date(year, month, 1)); var total := DaysInMonth(year, month);
      forall k :: first + total <= k < GridCells ==> cells[k] == OtherMonth(k - (first + total) + 1)
  {
    var first := Weekday(Date(year, month, 1));
    var total := DaysInMonth(year, month);
    var prev := PrevMonthDays(year, month);

    cells := [];
    var i: int := first - 1;
    while i >= 0
      invariant -1 <= i < first
      invariant |cells| == first - 1 - i
      invariant forall k :: 0 <= k < |cells| ==> cells[k] == OtherMonth(prev - first + 1 + k)
    {
      cells := cells + [OtherMonth(prev - i)];
      i := i - 1;
    }

    var day := 1;
    while day <= total
      invariant 1 <= day <= total + 1
      invariant |cells| == first + day - 1
      invariant forall k :: 0 <= k < first ==> cells[k] == OtherMonth(prev - first + 1 + k)
      invariant forall dd :: 1 <= dd < day ==>
        && cells[first + dd - 1] == MonthDay(dd, Classify(bookings, today, Date(year, month, dd)))
        && (first + dd - 1) % 7 == Weekday(Date(year, month, dd))
    {
      WeekdayOfDay(year, month, day);
      cells := cells + [MonthDay(day, Classify(bookings, today, Date(year, month, day)))];
      day := day + 1;
    }

    var remaining := GridCells - (first + total);
    var j := 1;
    while j <= remaining
      invariant 1 <= j <= remaining + 1
      invariant |cells| == first + total + j - 1
      invariant forall k :: 0 <= k < first ==> cells[k] == OtherMonth(prev - first + 1 + k)
      invariant forall dd :: 1 <= dd <= total ==>
        && cells[first + dd - 1] == MonthDay(dd, Classify(bookings, today, Date(year, month, dd)))
        && (first + dd - 1) % 7 == Weekday(Date(year, month, dd))
      invariant forall k :: first + total <= k < |cells| ==> cells[k] == OtherMonth(k - (first + total) + 1)
    {
      cells := cells + [OtherMonth(j)];
      j := j + 1;
    }
  }
}
