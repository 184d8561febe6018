# Booking widget and task list, modelled in Dafny

This project models the behaviour of two browser scripts from a personal
portfolio site:

- **The appointment booking widget** (`portfolio-website/js/booking.js`).
  - The fixed service catalog and the eight daily time slots.
  - The 12-hour display of a slot time, and the `YYYY-MM-DD` key a booking
    stores its date under, together with that key reordered to
    `DD/MM/YYYY`.
  - The Friday/Saturday rest days, the "fully booked" count, and the filter
    that decides which slots show as taken.
  - The 42-cell month grid and the order in which a day of the month is
    classified.
  - Form validation with its email pattern, the submit step, and the
    resets of the selection state.
- **The task list** (`portfolio-website/script.js`): adding, toggling and
  deleting tasks in the stored list, and the completed/pending statistics.

The browser's key-value store becomes an explicit value. A stored list is an
`Option<seq<…>>`, where `None` is a missing key. Every operation takes the
list and returns the new one. The clock's inputs are parameters: booking and
task ids, `createdAt`, and today's date. The weekday that `Date.getDay()`
reports is computed from a proleptic Gregorian day count (`Civil`).

Modules, one file each:

| file | module | contents |
|---|---|---|
| `maybe.dfy` | `Maybe` | `Option` |
| `storage.dfy` | `Storage` | reading a stored list |
| `text.dfy` | `Text` | JavaScript's `trim`, `\s`, `length` in UTF-16 units, `String(n)`, `padStart(2, '0')`, `split`, `parseInt` |
| `civil.dfy` | `Civil` | dates, month lengths, day numbers, weekdays |
| `booking_format.dfy` | `BookingFormat` | `formatTime`, `formatDate`, the dialog's date |
| `bookings.dfy` | `Bookings` | catalog, slots, booking records, availability rules |
| `calendar.dfy` | `Calendar` | day classification, `renderCalendar` |
| `booking_form.dfy` | `BookingForm` | email pattern, selection state, validation, submit, resets |
| `tasks.dfy` | `Tasks` | the task list |

A few behaviours of the code are easy to misread, so each is stated and
proved here:

- **A day counts as fully booked when it has at least eight stored
  bookings, whatever their status** (`isFullyBooked`, booking.js:124-133).
  Cancelled bookings and two bookings of the same slot both count, although
  the code's own comment at booking.js:131 reads "If all time slots are
  booked".
  - `AllSlotsTakenIsFullyBooked` proves that a day whose eight slots are
    all taken is fully booked.
  - `CancelledBookingsFillDay` shows that the converse fails: a day can be
    fully booked while every one of its slots is free.
- **Today is never selectable.** `renderCalendar` gives today's cell the
  "today" class and no click handler (booking.js:78-80); only the final
  `else` branch adds one (booking.js:89-92).
- **Choosing a day keeps the previously chosen time.** `selectDate`
  (booking.js:136-162) sets `selectedDate` and never touches `selectedTime`
  (`SelectDay`).
- **Submitting does not check the slot again**, so a slot already taken can
  be booked a second time (`SubmitDoesNotRecheckSlot`).
- **The stored booking holds the name, email and phone as typed.**
  Validation looks at the trimmed values (booking.js:397, 404, 411), but
  `submitBooking` stores the untrimmed ones (booking.js:364-368).
- **Validation reads the service drop-down, not `selectedService`**
  (booking.js:418). The model keeps one `service` field for both. This is an
  assumption about the page: the code itself does not keep the two equal.
  `selectedService` starts as `null` (booking.js:26), while the drop-down
  may already hold a value. The drop-down is cleared by `resetForm` only if
  the page places it inside `#bookingForm` (booking.js:513).

## Model

| member | source | states |
|---|---|---|
| Text.Trim | portfolio-website/script.js:29 | `trim()` never lengthens a string. Its result is empty exactly when the input is all white space. Otherwise it starts and ends with a character that is not white space, and it is the input with its leading and trailing white space cut off. |
| Text.JsLength | portfolio-website/js/booking.js:398 | A string's `length` in UTF-16 code units is at least its number of characters and at most twice that. |
| Text.JsLengthConcat | portfolio-website/js/booking.js:398 | The `length` of a concatenation is the sum of the two lengths. |
| Text.JsLengthOfBmp | portfolio-website/js/booking.js:398 | A string's `length` equals its number of characters exactly when every character lies in the Basic Multilingual Plane. |
| Text.ParseInt | portfolio-website/js/booking.js:259 | `parseInt` of a non-empty string of decimal digits is the number those digits write. |
| Text.DecimalRoundTrip | portfolio-website/js/booking.js:271-274 | Reading back the decimal digits of `String(n)` gives `n`. |
| Text.Pad2RoundTrip | portfolio-website/js/booking.js:272-273 | Reading back `String(n).padStart(2, '0')` gives `n`. |
| Text.SplitAtSeparator | portfolio-website/js/booking.js:258 | `split` peels off the text before the first separator as its first piece. |
| Civil.YearLength | portfolio-website/js/booking.js:53 | The twelve month lengths add up to 366 in a leap year and 365 otherwise, matching the day count between consecutive New Years. |
| Civil.NextDayAfterMonthEnd | portfolio-website/js/booking.js:53 | The first of a month is the day after the last day of the previous month, also across a year boundary. |
| Civil.DayZeroIsPreviousMonthEnd | portfolio-website/js/booking.js:57 | `new Date(year, month, 0)` is the last day of the previous month, whose day of the month is the `prevMonthDays` the grid counts up to. |
| Civil.WeekdayOfDay | portfolio-website/js/booking.js:52 | Day `d` of a month falls on the weekday of the 1st plus `d - 1`, modulo 7. |
| Civil.WeekdayAnchors | portfolio-website/js/booking.js:117-118 | `getDay()` of 1970-01-01 is Thursday (4), of 2025-06-14 Saturday (6), and of 2025-06-15 Sunday (0). |
| BookingFormat.FormatTime | portfolio-website/js/booking.js:257-267 | An hour `parseInt` cannot read fails every comparison, so it is shown as NaN with the evening marker. |
| BookingFormat.FormatTimeOf24h | portfolio-website/js/booking.js:257-267 | For `HH:MM` with a 24-hour `HH`: below 12 the hour is kept with the morning marker, 12 stays 12 with the noon marker, and above 12 it drops by 12 with the evening marker. The minutes are kept, and reading the display back recovers `HH`. |
| Bookings.SlotsShowTwelveHourClock | portfolio-website/js/booking.js:17 | Every one of the eight slots displays a whole hour between 1 and 12. The first three are in the morning, the fourth at noon and the rest in the evening. |
| BookingFormat.SplitFormatDate | portfolio-website/js/booking.js:270-275 | The date key splits on `-` into exactly three pieces: the year, the 1-based month padded to two digits, and the day padded to two digits. |
| BookingFormat.DisplayOfFormatDate | portfolio-website/js/booking.js:463-464 | The dialog shows the key's three components in day/month/year order. |
| BookingFormat.FormatDateRoundTrip | portfolio-website/js/booking.js:270-275 | Parsing a date key gives back the date it was made from. |
| BookingFormat.FormatDateInjective | portfolio-website/js/booking.js:270-275 | Two dates have the same key exactly when they are the same date, so comparing keys compares dates. |
| Storage.ReadList | portfolio-website/js/booking.js:523-525 | `getBookings` reads a missing `bookings` key as the empty list and returns a stored list as it is; `getTasksFromStorage` (portfolio-website/script.js:63-66) reads the tasks key the same way. |
| Bookings.OnDate | portfolio-website/js/booking.js:129 | The bookings on a date are the stored bookings with that date key. There is one entry for every stored position on that date, duplicates included, so their number is the count `isFullyBooked` compares with the number of slots. |
| Bookings.OnDateAppend | portfolio-website/js/booking.js:129 | Appending a booking adds it to the day it is on and to no other day. |
| Bookings.FullyBookedStaysFull | portfolio-website/js/booking.js:124-133 | Storing one more booking never turns a fully booked day back into one that is not. |
| Bookings.AllSlotsTakenIsFullyBooked | portfolio-website/js/booking.js:124-133 | When each of the eight slots of a day shows as taken, the day counts as fully booked. |
| Bookings.CancelledBookingsFillDay | portfolio-website/js/booking.js:124-133 | When a day holds eight or more stored bookings and all of them are cancelled, the day is fully booked, although none of its slots shows as taken. This holds whatever is stored for other days. |
| Bookings.BookedTimes | portfolio-website/js/booking.js:178-182 | A time is among the booked times of a date exactly when some stored booking on that date, not cancelled, holds it. There are never more booked times than bookings on the date. |
| Bookings.TimeSlotViews | portfolio-website/js/booking.js:165-199 | With no date selected no slots are shown. Otherwise all eight slots are shown in order, and each is marked taken exactly when a booking on the selected date that is not cancelled holds it. |
| Bookings.CancelledNeverBlocks | portfolio-website/js/booking.js:180-182 | Storing a cancelled booking changes no slot's availability on any date. |
| Bookings.StoredBookingTakesSlot | portfolio-website/js/booking.js:180-192 | Once a booking that is not cancelled is stored, its slot shows as taken on its date. |
| Bookings.TwoRestDaysAWeek | portfolio-website/js/booking.js:116-121 | Any seven consecutive days of a month contain exactly two rest days. |
| Calendar.ClassifyPriority | portfolio-website/js/booking.js:73-92 | A day is classified by the first test that holds, in the order past, today, rest day, fully booked. It is selectable exactly when none of them holds. |
| Calendar.StoringNeverFreesADay | portfolio-website/js/booking.js:73-92 | A day that is selectable after one more booking is stored was already selectable before it. |
| Calendar.RenderCalendar | portfolio-website/js/booking.js:52-104 | The grid has 42 cells, in three parts: the last `firstDay` days of the previous month in ascending order; every day of the month in order, with its classification and in its weekday's column; and then the next month's days from 1 onwards. |
| BookingForm.IsValidEmail | portfolio-website/js/booking.js:452-455 | The address is accepted exactly when it matches `^[^\s@]+@[^\s@]+\.[^\s@]+$`, read as positions: a non-empty run before the `@`, a `.` after it with text on both sides, and no other `@` and no white space anywhere. |
| BookingForm.AcceptedEmailShape | portfolio-website/js/booking.js:452-455 | An accepted address has no white space and exactly one `@`, which is not first. After the `@` comes a `.` that has text on both sides. |
| BookingForm.EmailFromParts | portfolio-website/js/booking.js:452-455 | `local@host.tld` is accepted whenever its three parts are non-empty and hold no white space and no `@`. |
| BookingForm.SelectDay | portfolio-website/js/booking.js:73-92 | A click records the day exactly when it is not past, not today, not a rest day and not fully booked. Otherwise the day has no handler and the chosen date stays as it was. The time, service, form and dialog never change. |
| BookingForm.SelectTime | portfolio-website/js/booking.js:204-218 | Choosing a slot sets the chosen time to that slot. The date, service, form and dialog are kept. |
| BookingForm.ChooseService | portfolio-website/js/booking.js:292-296 | A change of the service drop-down, or a click on a service card (booking.js:305-306), sets the chosen service. The date, time, form and dialog are kept. |
| BookingForm.InitialRejected | portfolio-website/js/booking.js:24-26 | On page load, with nothing chosen and the form empty, validation reports all six errors. |
| BookingForm.TimeSettlesNoTime | portfolio-website/js/booking.js:428-431 | Choosing a time removes exactly the missing-time error, and every other error stays as it was. |
| BookingForm.ServiceSettlesNoService | portfolio-website/js/booking.js:416-421 | Choosing a service removes exactly the missing-service error, and every other error stays as it was. |
| BookingForm.EmptyServiceIsReported | portfolio-website/js/booking.js:416-421 | Setting the drop-down to its empty choice adds the missing-service error, and every other error stays as it was. |
| BookingForm.ValidateFormIff | portfolio-website/js/booking.js:387-436 | The form passes exactly when all of these hold: the trimmed name has at least 2 UTF-16 units; the trimmed email matches the pattern; the trimmed phone has at least 10 units; and a service, a date and a time are chosen. |
| BookingForm.NoAtSignRejected | portfolio-website/js/booking.js:404-405 | Trimming cannot add an `@`, so an address typed without one is never accepted. |
| BookingForm.MalformedEmailRejected | portfolio-website/js/booking.js:404-408 | An address without an `@` is reported as invalid, and submitting does not store anything. |
| BookingForm.SubmitBooking | portfolio-website/js/booking.js:350-384 | A failed validation leaves the list and the state unchanged. A passed one appends exactly one booking to the stored list and leaves the earlier bookings alone. The new booking is confirmed, carries the selections, the catalog's name and price, the form fields as typed, and the clock's `createdAt`. The dialog shows it, and the form, date, time and service are cleared. |
| BookingForm.SubmitTakesSlot | portfolio-website/js/booking.js:357-377 | After a successful submit the booked slot shows as taken on its date, and that day holds one more booking. |
| BookingForm.SubmitDoesNotRecheckSlot | portfolio-website/js/booking.js:350-377 | Submitting a slot that is already taken stores two bookings that are not cancelled and share a date and time. |
| BookingForm.NoSecondSubmit | portfolio-website/js/booking.js:515-517 | A submit straight after a successful one fails validation and changes nothing, because the selections were cleared. |
| BookingForm.ResetForm | portfolio-website/js/booking.js:512-520 | `resetForm` empties the form and clears the date, time and service. An open dialog stays open. |
| BookingForm.CloseModal | portfolio-website/js/booking.js:497-509 | `closeModal` closes the dialog and clears the date and time. The service and the form fields are kept. |
| BookingForm.CloseModalClearsChoice | portfolio-website/js/booking.js:497-509 | After `closeModal` no time slots are shown, and a submit changes nothing. It still fails when only a day or only a time is chosen again. |
| BookingForm.DigitPhoneAccepted | portfolio-website/js/booking.js:410-413 | A phone typed as ten or more plain digits passes the phone check. |
| Tasks.AddTask | portfolio-website/script.js:28-47 | Input that is blank after trimming leaves the list unchanged. Otherwise exactly one task is appended after the existing ones, which are untouched. The new task carries the given id, the non-empty trimmed text, and is not completed. |
| Tasks.AddTaskStats | portfolio-website/script.js:36-47 | Adding a task adds one pending task and leaves the completed count as it was. |
| Tasks.FindIndex | portfolio-website/script.js:118 | `findIndex` gives the first position holding the id, and nothing exactly when no task holds it. |
| Tasks.ToggleTaskComplete | portfolio-website/script.js:116-122 | The first task with the id has its `completed` flag flipped and every other task is unchanged. An absent id leaves the list as it is. The length, ids and texts never change. |
| Tasks.ToggleTwice | portfolio-website/script.js:116-122 | Toggling the same id twice gives back the original list. |
| Tasks.ToggleStats | portfolio-website/script.js:116-122 | Toggling an id that is present moves exactly one task between the completed and the pending count. |
| Tasks.DeleteTaskKeeps | portfolio-website/script.js:137-141 | A delete keeps exactly the tasks without the id. The list gets shorter exactly when some task carries the id. |
| Tasks.DeleteConcat | portfolio-website/script.js:137-141 | Deleting from a concatenation is deleting from each part, so the remaining tasks keep their relative order. |
| Tasks.DeleteAbsent | portfolio-website/script.js:137-141 | Deleting an id no task carries leaves the list unchanged. |
| Tasks.DeleteTwice | portfolio-website/script.js:137-141 | Deleting the same id twice gives the same list as deleting it once. |
| Tasks.DeleteStats | portfolio-website/script.js:137-141 | After a delete, the completed and pending counts are those of the original positions whose task does not carry the id. |
| Tasks.UpdateStats | portfolio-website/script.js:156-159 | The completed count is the number of positions holding a completed task, and completed plus pending is the list's length. |

## Left out

- DOM work is not modelled. This covers CSS classes, `innerHTML`, the success dialog's markup, `alert`, `scrollIntoView`, event-listener registration, and the month/year heading. The model keeps only the state these produce: which booking the dialog shows, and which day cells get a click handler.
- The storage text and JSON are not modelled: `localStorage` and `JSON.parse`/`JSON.stringify`. A stored list is a value, and a missing key is `None`. The scripts also treat a stored empty string like a missing key, and that case is not separate here. Malformed stored JSON, on which `JSON.parse` throws, is not modelled either.
- The clock and the time zone become parameters. `Date.now()` ids, `new Date()` for today and `toISOString()` for `createdAt` are inputs. Local midnight, `setHours`, and the race in which midnight passes between the calls is not modelled.
- Month navigation is not modelled. It uses `setMonth` and the browser's normalisation of out-of-range months.
- `Civil.Date` years are natural numbers. `Date`'s mapping of two-digit years 0-99 to 1900-1999 and years before year 0 are not modelled.
- `escapeHtml` is not modelled: it relies on the browser serialising a text node.
- Presentation text is not modelled: the Arabic month and day names, the time markers' wording, and the price suffix. The day-name text of `selectDate`, which indexes the day-name array with the day of the month, is presentation only.
- `loadBookings`, `loadTasks` and `renderTask` are not modelled: they only log or draw.
- `updateBookingSummary` and `updateServiceSelection` are not modelled: they only display the current selection.
- BookingForm.SelectTime: the model lets any slot of `timeSlots` be chosen at any moment, which allows more than the page does. The page adds a slot's click handler only when `updateTimeSlots` finds the slot free on the selected date (booking.js:192-198). It runs `updateTimeSlots` only once a day is chosen, so no slot is clickable before that (booking.js:32-36, 169-173). It never removes a handler, so a slot that was free once stays clickable. The model does not track which handlers exist.
- BookingFormat.FormatTime: its contract covers only the NaN case. The display of `HH:MM` with a two-digit 24-hour `HH` is stated in `FormatTimeOf24h`, and other inputs are described only by the function's body.
- Text.ParseInt: its contract covers only plain digit strings. Leading white space, a sign and the `0x` prefix are handled in the body but not stated in a contract. Numbers beyond 2^53, which JavaScript rounds, are kept exact.
- Text.JsLength: its contract states only the bounds, between one and two code units per character. The exact count is characterised by `JsLengthConcat` and `JsLengthOfBmp`.
- Tasks.DeleteTask: the function itself promises only that the list does not grow. What it keeps, and in which order, is stated in `DeleteTaskKeeps` and `DeleteConcat`.
- BookingForm.SubmitBooking: the model has one `service` field for both the drop-down and `selectedService`. When the drop-down holds a service while `selectedService` is `null`, `validateForm` passes, and `this.services[null].name` (booking.js:362) then throws, so nothing is stored. The model would append a booking in that case. The throw is not modelled, because the model does not separate the two fields.
- Bookings.TimeSlotViews: `updateTimeSlots` walks the page's `.time-slot` elements and reads each one's `data-time` (booking.js:185-186); it never reads `timeSlots`. The model assumes the markup carries exactly the `timeSlots` values, in that order, because the markup is not part of the scripts.
- `slotDuration` and the services' durations are declared but read by nothing. They are recorded as constants and play no part in any rule.
- The second booking system in the repository (`Online Appointment Booking System/`) is not part of this model.
