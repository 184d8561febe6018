/**
 * The booking widget's text formats: a slot time shown on a 12-hour clock,
 * the `YYYY-MM-DD` key under which a booking records its date, and that key
 * reordered to `DD/MM/YYYY` for the confirmation dialog.
 */
module BookingFormat {
  import opened Maybe
  import opened Text
  import opened Civil

  /** The three suffixes the 12-hour display attaches (morning, noon,
      evening); their wording is presentation and kept opaque here. */
  datatype Marker = Morning | Noon | Evening

  /** What `formatTime` interpolates: the displayed hour, the minutes text
      (None when the input had no `:`, which JavaScript prints as
      `undefined`) and the marker. */
  datatype Clock12 = Clock12(hour: Num, minutes: Option<string>, marker: Marker)

  /** `formatTime(time)`: the hour before the first `:` read with `parseInt`;
      below 12 it is shown as is in the morning, 12 at noon, anything else
      (NaN included, since every comparison with NaN fails) less 12 in the
      evening. */
  function FormatTime(time: string): (c: Clock12)
    ensures ParseInt(Split(time, ':')[0]).NaN? ==> c.hour.NaN? && c.marker == Evening
  {
    var parts := Split(time, ':');
    var minutes := if |parts| >= 2 then Some(parts[1]) else None;
    match ParseInt(parts[0])
    case NaN => Clock12(NaN, minutes, Evening)
    case Int(h) =>
      if h < 12 then Clock12(Int(h), minutes, Morning)
      else if h == 12 then Clock12(Int(h), minutes, Noon)
      else Clock12(Int(h - 12), minutes, Evening)
  }

  /** Reads a 12-hour display back as the hour of a 24-hour clock. */
  function TwentyFourHour(c: Clock12): Option<int> {
    match c.hour
    case NaN => None
    case Int(h) =>
      match c.marker
      case Morning => Some(h)
      case Noon => Some(12)
      case Evening => Some(h + 12)
  }

  /** For a time written `HH:MM` with a 24-hour `HH`, the display keeps the
      minutes and shows the hour itself in the morning, 12 at noon and the
      hour less 12 in the evening, and reading it back recovers `HH`. */
  lemma FormatTimeOf24h(h: nat, mm: string)
    requires h < 24 && ':' !in mm
    ensures var c := FormatTime(Pad2(h) + ":" + mm);
      && c.minutes == Some(mm)
      && (h < 12 ==> c.hour == Int(h) && c.marker == Morning)
      && (h == 12 ==> c.hour == Int(12) && c.marker == Noon)
      && (h > 12 ==> c.hour == Int(h - 12) && c.marker == Evening)
      && TwentyFourHour(c) == Some(h)
  {
    var hh := Pad2(h);
    assert ':' !in hh;
    SplitAtSeparator(hh, ':', mm);
    SplitWithoutSeparator(mm, ':');
    assert Split(hh + ":" + mm, ':') == [hh, mm];
    Pad2RoundTrip(h);
    assert ParseInt(hh) == Int(h);
  }

  /** `formatDate(date)`: the year, then month + 1 and the day each padded to
      two digits, joined by `-`. */
  function FormatDate(d: Date): string {
    Decimal(d.year) + "-" + Pad2(d.month + 1) + "-" + Pad2(d.day)
  }

  /** `parts[i]` as a template literal prints it. */
  function PartOr(parts: seq<string>, i: nat): string {
    if i < |parts| then parts[i] else "undefined"
  }

  /** The confirmation dialog's date: the stored date split on `-` and
      printed as `parts[2]/parts[1]/parts[0]`. */
  function DisplayDate(date: string): string {
    var parts := Split(date, '-');
    PartOr(parts, 2) + "/" + PartOr(parts, 1) + "/" + PartOr(parts, 0)
  }

  /** A non-empty run of decimal digits. */
  predicate IsNumeral(t: string) {
    |t| > 0 && AllDigits(t)
  }

  /** Reads a `YYYY-MM-DD` key back into a date: the inverse of `FormatDate`. */
  function ParseDate(s: string): Option<Date> {
    var p := Split(s, '-');
    if |p| == 3 && IsNumeral(p[0]) && IsNumeral(p[1]) && IsNumeral(p[2]) && DecimalValue(p[1]) >= 1
    then Some(Date(DecimalValue(p[0]), DecimalValue(p[1]) - 1, DecimalValue(p[2])))
    else None
  }

  /** The stored key splits on `-` into exactly the year, the padded month
      and the padded day. */
  lemma SplitFormatDate(d: Date)
    ensures Split(FormatDate(d), '-') == [Decimal(d.year), Pad2(d.month + 1), Pad2(d.day)]
  {
    var y, m, dd := Decimal(d.year), Pad2(d.month + 1), Pad2(d.day);
    assert '-' !in y && '-' !in m && '-' !in dd;
    assert FormatDate(d) == y + "-" + (m + "-" + dd);
    SplitAtSeparator(y, '-', m + "-" + dd);
    SplitAtSeparator(m, '-', dd);
    SplitWithoutSeparator(dd, '-');
  }

  /** The dialog shows the same three components in day/month/year order. */
  lemma DisplayOfFormatDate(d: Date)
    ensures DisplayDate(FormatDate(d)) == Pad2(d.day) + "/" + Pad2(d.month + 1) + "/" + Decimal(d.year)
  {
    SplitFormatDate(d);
  }

  /** A key that splits on `-` into three digit strings reads back as the
      numbers they write, the middle one less one. */
  lemma ParseDateOfParts(key: string, y: string, m: string, dd: string)
    requires Split(key, '-') == [y, m, dd]
    requires |y| > 0 && |m| > 0 && |dd| > 0
    requires AllDigits(y) && AllDigits(m) && AllDigits(dd)
    requires DecimalValue(m) >= 1
    ensures ParseDate(key) == Some(Date(DecimalValue(y), DecimalValue(m) - 1, DecimalValue(dd)))
  {
  }

  /** Reading the stored key back gives the date it was made from. */
  lemma FormatDateRoundTrip(d: Date)
    ensures ParseDate(FormatDate(d)) == Some(d)
  {
    SplitFormatDate(d);
    DecimalRoundTrip(d.year);
    Pad2RoundTrip(d.month + 1);
    Pad2RoundTrip(d.day);
    ParseDateOfParts(FormatDate(d), Decimal(d.year), Pad2(d.month + 1), Pad2(d.day));
  }

  /** Distinct dates have distinct keys, so comparing keys compares dates. */
  lemma FormatDateInjective(a: Date, b: Date)
    ensures FormatDate(a) == FormatDate(b) <==> a == b
  {
    FormatDateRoundTrip(a);
    FormatDateRoundTrip(b);
  }
}
