/**
 * The booking widget's selection state and form: choosing a day, a slot and
 * a service, validating the customer's details, storing the booking, and the
 * resets that follow.
 */
module BookingForm {
  import opened Maybe
  import opened Text
  import opened Civil
  import opened BookingFormat
  import opened Bookings
  import opened Calendar

  // ----- the email pattern -----

  /** A character `[^\s@]` matches. */
  predicate Plain(c: char) {
    !IsSpace(c) && c != '@'
  }

  /** `^[^\s@]+@[^\s@]+\.[^\s@]+$`, read by positions: an `@` at `k` with
      text before it, a `.` at `j` with text between the two and after the
      dot, and every other character matching `[^\s@]`. */
  ghost predicate MatchesEmailPattern(s: string) {
    exists k, j :: 0 < k && k + 1 < j && j + 1 < |s| && s[k] == '@' && s[j] == '.'
      && forall i :: 0 <= i < |s| && i != k ==> Plain(s[i])
  }

  /** The first position of `c` in `s`, if any. */
  function IndexOf(s: string, c: char): (r: Option<nat>)
    ensures r.None? <==> c !in s
    ensures r.Some? ==> r.value < |s| && s[r.value] == c && c !in s[..r.value]
  {
    if |s| == 0 then None
    else if s[0] == c then Some(0)
    else match IndexOf(s[1..], c)
      case None => None
      case Some(k) =>
        assert s[..k + 1] == [s[0]] + s[1..][..k];
        Some(k + 1)
  }

  /** `isValidEmail(email)`: the first `@` is not at the start, no character
      other than it is white space or another `@`, and some `.` after it has
      text on both sides. */
  function IsValidEmail(s: string): (ok: bool)
    ensures ok <==> MatchesEmailPattern(s)
  {
    var ok := match IndexOf(s, '@')
      case None => false
      case Some(k) =>
        && 0 < k
        && (forall i | 0 <= i < |s| && i != k :: Plain(s[i]))
        && (exists j | k + 1 < j < |s| - 1 :: s[j] == '.');
    EmailDecision(s, ok);
    ok
  }

  // `IsValidEmail` calls this with its own result: stating the decision as
  // a requires on `ok` keeps the equivalence proof out of the function body.
  lemma EmailDecision(s: string, ok: bool)
    requires ok == match IndexOf(s, '@')
      case None => false
      case Some(k) =>
        && 0 < k
        && (forall i | 0 <= i < |s| && i != k :: Plain(s[i]))
        && (exists j | k + 1 < j < |s| - 1 :: s[j] == '.')
    ensures ok <==> MatchesEmailPattern(s)
  {
    if ok {
      var k := IndexOf(s, '@').value;
      var j :| k + 1 < j < |s| - 1 && s[j] == '.';
      assert 0 < k && k + 1 < j && j + 1 < |s| && s[k] == '@' && s[j] == '.';
    }
    if MatchesEmailPattern(s) {
      var k, j :| 0 < k && k + 1 < j && j + 1 < |s| && s[k] == '@' && s[j] == '.'
        && forall i :: 0 <= i < |s| && i != k ==> Plain(s[i]);
      assert '@' in s;
      var first := IndexOf(s, '@').value;
      assert first == k;
      assert k + 1 < j < |s| - 1 && s[j] == '.';
    }
  }

  /** An address accepted by the pattern has exactly one `@`, no white
      space, and a `.` after the `@` with text on both sides. */
  lemma AcceptedEmailShape(s: string)
    requires IsValidEmail(s)
    ensures forall i :: 0 <= i < |s| ==> !IsSpace(s[i])
    ensures exists k :: 0 < k < |s| && s[k] == '@' && '@' !in s[..k] && '@' !in s[k + 1..] && '.' in s[k + 2..|s| - 1]
  {
    var k, j :| 0 < k && k + 1 < j && j + 1 < |s| && s[k] == '@' && s[j] == '.'
      && forall i :: 0 <= i < |s| && i != k ==> Plain(s[i]);
    assert s[j] == s[k + 2..|s| - 1][j - (k + 2)];
    assert forall i :: 0 <= i < |s| && i != k ==> s[i] != '@';
    assert '@' !in s[..k];
    assert '@' !in s[k + 1..];
  }

  /** Three non-empty runs of `[^\s@]` joined as `local@host.tld` are always
      accepted. */
  lemma EmailFromParts(local: string, host: string, tld: string)
    requires |local| > 0 && |host| > 0 && |tld| > 0
    requires forall i :: 0 <= i < |local| ==> Plain(local[i])
    requires forall i :: 0 <= i < |host| ==> Plain(host[i])
    requires forall i :: 0 <= i < |tld| ==> Plain(tld[i])
    ensures IsValidEmail(local + "@" + host + "." + tld)
  {
    var s := local + "@" + host + "." + tld;
    var k := |local|;
    var j := |local| + 1 + |host|;
    assert s[k] == '@' && s[j] == '.';
    forall i | 0 <= i < |s| && i != k
      ensures Plain(s[i])
    {
      if i < k {
        assert s[i] == local[i];
      } else if i < j {
        assert s[i] == host[i - k - 1];
      } else if i > j {
        assert s[i] == tld[i - j - 1];
      }
    }
    assert MatchesEmailPattern(s);
  }

  // ----- session state -----

  /** The text fields of the booking form as typed. */
  datatype Form = Form(name: string, email: string, phone: string, notes: string)

  /** The form after `reset()`: every field back to its empty default. */
  const EmptyForm := Form("", "", "", "")

  /** The widget's state between clicks: `selectedDate`, `selectedTime`, the
      chosen service, the form fields, and the booking the success dialog is
      showing, if it is open. One `service` field stands for both the
      service drop-down and `selectedService`: the model assumes the page
      keeps the two equal. */
  datatype Session = Session(
    date: Option<Date>,
    time: Option<string>,
    service: Option<ServiceId>,
    form: Form,
    shown: Option<Booking>)

  /** The state on page load. */
  const Initial := Session(None, None, None, EmptyForm, None)

  /** A click on a day of the shown month. Only selectable days carry a
      handler; the handler records the date and leaves the chosen time as
      it was. */
  function SelectDay(s: Session, bookings: seq<Booking>, today: Date, d: Date): (r: Session)
    requires d.month < 12
    ensures r.time == s.time && r.service == s.service && r.form == s.form && r.shown == s.shown
    ensures r.date == if !Before(d, today) && d != today && !IsRestDay(d) && !IsFullyBooked(bookings, d)
      then Some(d) else s.date
  {
    ClassifyPriority(bookings, today, d);
    if Classify(bookings, today, d) == Selectable then s.(date := Some(d)) else s
  }

  /** `selectTime(time)`, the handler of a slot element, called with that
      slot's `data-time`, which the page is assumed to fill from
      `timeSlots`. The page adds the handler only to slots that are free on
      the date shown and never removes one; the model does not track which
      handlers exist and lets any slot be chosen at any moment, which allows
      more than the page does. */
  function SelectTime(s: Session, time: string): (r: Session)
    requires time in TimeSlots
    ensures r.time == Some(time)
    ensures r.date == s.date && r.service == s.service && r.form == s.form && r.shown == s.shown
  {
    s.(time := Some(time))
  }

  /** A change of the service drop-down, or a click on a service card;
      `None` is the drop-down's empty choice. */
  function ChooseService(s: Session, choice: Option<ServiceId>): (r: Session)
    ensures r.service == choice
    ensures r.date == s.date && r.time == s.time && r.form == s.form && r.shown == s.shown
  {
    s.(service := choice)
  }

  /** The fields `validateForm` reports on. */
  datatype FormError = NameInvalid | EmailInvalid | PhoneInvalid | NoService | NoDate | NoTime

  /** The errors `validateForm` reports on the typed fields. Names and
      phones are measured after trimming, in UTF-16 code units. */
  function FieldErrors(f: Form): (errors: set<FormError>)
    ensures errors <= {NameInvalid, EmailInvalid, PhoneInvalid}
  {
    var name := Trim(f.name);
    var email := Trim(f.email);
    var phone := Trim(f.phone);
    (if JsLength(name) < 2 then {NameInvalid} else {})
    + (if |email| == 0 || !IsValidEmail(email) then {EmailInvalid} else {})
    + (if JsLength(phone) < 10 then {PhoneInvalid} else {})
  }

  /** `validateForm()`: every check runs and reports its own error. */
  function FormErrors(s: Session): set<FormError> {
    FieldErrors(s.form)
    + (if s.service.None? then {NoService} else {})
    + (if s.date.None? then {NoDate} else {})
    + (if s.time.None? then {NoTime} else {})
  }

  predicate ValidateForm(s: Session) {
    FormErrors(s) == {}
  }

  /** The form passes exactly when the trimmed name has two or more code
      units, the trimmed email matches the pattern, the trimmed phone has
      ten or more code units, and a service, a date and a time are chosen. */
  lemma ValidateFormIff(s: Session)
    ensures ValidateForm(s) <==>
      && JsLength(Trim(s.form.name)) >= 2
      && MatchesEmailPattern(Trim(s.form.email))
      && JsLength(Trim(s.form.phone)) >= 10
      && s.service.Some? && s.date.Some? && s.time.Some?
  {
    var errors := FormErrors(s);
    if JsLength(Trim(s.form.name)) < 2 { assert NameInvalid in errors; }
    if !IsValidEmail(Trim(s.form.email)) { assert EmailInvalid in errors; }
    if JsLength(Trim(s.form.phone)) < 10 { assert PhoneInvalid in errors; }
    if s.service.None? { assert NoService in errors; }
    if s.date.None? { assert NoDate in errors; }
    if s.time.None? { assert NoTime in errors; }
  }

  /** `resetForm()`: the form is emptied and date, time and service are
      cleared; an open dialog stays open. */
  function ResetForm(s: Session): (r: Session)
    ensures r.date.None? && r.time.None? && r.service.None?
    ensures r.form == EmptyForm && r.shown == s.shown
  {
    s.(date := None, time := None, service := None, form := EmptyForm)
  }

  /** `closeModal()`: the dialog closes and date and time are cleared; the
      service and the form are kept. */
  function CloseModal(s: Session): (r: Session)
    ensures r.shown.None? && r.date.None? && r.time.None?
    ensures r.service == s.service && r.form == s.form
  {
    s.(shown := None, date := None, time := None)
  }

  /** The booking `submitBooking` builds: the date key, the slot, the
      service with the catalog's name and price copied in, the form fields
      as typed (not trimmed), and status `Confirmed`. */
  function NewBooking(s: Session, id: int, createdAt: string): Booking
    requires s.date.Some? && s.service.Some? && s.time.Some?
  {
    var service := ServiceOf(s.service.value);
    Booking(id, FormatDate(s.date.value), s.time.value, s.service.value, service.name, service.price,
            Customer(s.form.name, s.form.email, s.form.phone, s.form.notes), Confirmed, createdAt)
  }

  datatype Submitted = Submitted(session: Session, bookings: seq<Booking>)

  /** `submitBooking()`: when validation fails nothing changes; otherwise
      exactly one confirmed booking is appended to the stored list, the
      success dialog shows it, and the form and selections are reset. The
      clock's `id` and `createdAt` are inputs. */
  function SubmitBooking(s: Session, bookings: seq<Booking>, id: int, createdAt: string): (r: Submitted)
    ensures !ValidateForm(s) ==> r == Submitted(s, bookings)
    ensures ValidateForm(s) ==>
      && |r.bookings| == |bookings| + 1
      && r.bookings[..|bookings|] == bookings
      && var b := r.bookings[|bookings|];
      && b.id == id && b.status == Confirmed
      && b.date == FormatDate(s.date.value) && b.time == s.time.value
      && b.service == s.service.value
      && b.serviceName == ServiceOf(b.service).name && b.price == ServiceOf(b.service).price
      && b.customer == Customer(s.form.name, s.form.email, s.form.phone, s.form.notes)
      && b.createdAt == createdAt
      && r.session.shown == Some(b)
      && r.session.date.None? && r.session.time.None? && r.session.service.None?
      && r.session.form == EmptyForm
  {
    if !ValidateForm(s) then Submitted(s, bookings)
    else
      assert NoService !in FormErrors(s) && NoDate !in FormErrors(s) && NoTime !in FormErrors(s);
      var b := NewBooking(s, id, createdAt);
      var all := bookings + [b];
      assert all[..|bookings|] == bookings;
      Submitted(ResetForm(s.(shown := Some(b))), all)
  }

  // ----- properties of the workflow -----
  //
  // The lemmas about a successful submit state their premise as
  // `ensures ValidateForm(s) ==> ...` rather than as a requires, so that
  // the premise is not a precondition callers must discharge up front.

  /** On page load every check fails: the form is empty and nothing is
      chosen. */
  lemma InitialRejected()
    ensures FormErrors(Initial) == {NameInvalid, EmailInvalid, PhoneInvalid, NoService, NoDate, NoTime}
  {
    assert LeadingSpace("") == 0;
    assert Trim("") == "";
    assert JsLength("") == 0;
  }

  /** Choosing a time settles exactly the missing-time error; no other
      error changes. */
  lemma TimeSettlesNoTime(s: Session, time: string)
    requires time in TimeSlots
    ensures FormErrors(SelectTime(s, time)) == FormErrors(s) - {NoTime}
  {
    var fields := FieldErrors(s.form);
    assert NoTime !in fields;
  }

  /** Choosing a service settles exactly the missing-service error. */
  lemma ServiceSettlesNoService(s: Session, id: ServiceId)
    ensures FormErrors(ChooseService(s, Some(id))) == FormErrors(s) - {NoService}
  {
    var fields := FieldErrors(s.form);
    assert NoService !in fields;
  }

  /** Emptying the service drop-down brings the missing-service error back,
      and no other error changes. */
  lemma EmptyServiceIsReported(s: Session)
    ensures FormErrors(ChooseService(s, None)) == FormErrors(s) + {NoService}
  {
  }

  /** After a successful submit the booked slot shows as taken on its date,
      and the day holds one more booking. */
  lemma SubmitTakesSlot(s: Session, bookings: seq<Booking>, id: int, createdAt: string)
    ensures ValidateForm(s) ==>
      var r := SubmitBooking(s, bookings, id, createdAt);
      && IsSlotTaken(r.bookings, FormatDate(s.date.value), s.time.value)
      && |OnDate(r.bookings, FormatDate(s.date.value))| == |OnDate(bookings, FormatDate(s.date.value))| + 1
  {
    if ValidateForm(s) {
      var r := SubmitBooking(s, bookings, id, createdAt);
      var b := r.bookings[|bookings|];
      assert r.bookings == bookings + [b];
      StoredBookingTakesSlot(bookings, b);
      OnDateAppend(bookings, b, b.date);
    }
  }

  /** Submitting does not look at the slot again: a slot already taken on
      the chosen date is booked a second time. */
  lemma SubmitDoesNotRecheckSlot(s: Session, bookings: seq<Booking>, id: int, createdAt: string)
    ensures ValidateForm(s) && IsSlotTaken(bookings, FormatDate(s.date.value), s.time.value) ==>
      var r := SubmitBooking(s, bookings, id, createdAt);
      exists i, j :: 0 <= i < j < |r.bookings|
        && r.bookings[i].status != Cancelled && r.bookings[j].status != Cancelled
        && r.bookings[i].date == r.bookings[j].date && r.bookings[i].time == r.bookings[j].time
  {
    if ValidateForm(s) && IsSlotTaken(bookings, FormatDate(s.date.value), s.time.value) {
      var r := SubmitBooking(s, bookings, id, createdAt);
      var date, time := FormatDate(s.date.value), s.time.value;
      var i :| 0 <= i < |bookings| && bookings[i].date == date && bookings[i].status != Cancelled && bookings[i].time == time;
      assert r.bookings[i] == bookings[i];
      var j := |bookings|;
      assert r.bookings[j].date == date && r.bookings[j].time == time;
    }
  }

  /** A second submit right after a successful one is rejected: the
      selections it needs were cleared. */
  lemma NoSecondSubmit(s: Session, bookings: seq<Booking>, id: int, createdAt: string, id2: int, createdAt2: string)
    ensures ValidateForm(s) ==>
      var r := SubmitBooking(s, bookings, id, createdAt);
      SubmitBooking(r.session, r.bookings, id2, createdAt2) == r
  {
    if ValidateForm(s) {
      var r := SubmitBooking(s, bookings, id, createdAt);
      assert NoDate in FormErrors(r.session);
    }
  }

  /** `closeModal` runs `updateTimeSlots` with no date selected, so no slots
      are shown afterwards, whatever is stored. A submit is then rejected,
      and it stays rejected when only a day or only a time is chosen again. */
  lemma CloseModalClearsChoice(s: Session, bookings: seq<Booking>, id: int, createdAt: string,
                               today: Date, d: Date, time: string)
    requires d.month < 12 && time in TimeSlots
    ensures TimeSlotViews(bookings, CloseModal(s).date).None?
    ensures SubmitBooking(CloseModal(s), bookings, id, createdAt) == Submitted(CloseModal(s), bookings)
    ensures !ValidateForm(SelectDay(CloseModal(s), bookings, today, d))
    ensures !ValidateForm(SelectTime(CloseModal(s), time))
  {
    assert NoDate in FormErrors(CloseModal(s));
    assert NoTime in FormErrors(SelectDay(CloseModal(s), bookings, today, d));
    assert NoDate in FormErrors(SelectTime(CloseModal(s), time));
  }

  /** A phone number typed as ten or more plain digits passes the phone
      check: it has nothing to trim and one code unit per digit. */
  lemma DigitPhoneAccepted(s: Session)
    requires |s.form.phone| >= 10 && AllDigits(s.form.phone)
    ensures PhoneInvalid !in FormErrors(s)
  {
    var p := s.form.phone;
    assert LeadingSpace(p) == 0 && TrailingSpace(p) == 0;
    assert Trim(p) == p[0..|p|];
    assert p[0..|p|] == p;
    JsLengthOfBmp(p);
  }

  /** An address without an `@` is reported and nothing is stored. */
  lemma MalformedEmailRejected(s: Session, bookings: seq<Booking>, id: int, createdAt: string)
    requires '@' !in s.form.email
    ensures EmailInvalid in FormErrors(s)
    ensures SubmitBooking(s, bookings, id, createdAt).bookings == bookings
  {
    NoAtSignRejected(s.form.email);
  }

  /** Trimming cannot bring in an `@`, so an address without one fails. */
  lemma NoAtSignRejected(email: string)
    requires '@' !in email
    ensures !IsValidEmail(Trim(email))
  {
    assert '@' !in Trim(email);
  }
}
