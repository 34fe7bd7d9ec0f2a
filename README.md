# Cabin reservation front end: slot grid and signup validation

This project models the two pieces of logic in a browser front end for
booking cabins in half-hour slots.

**The weekly slot-occupancy grid of the cabin calendar view**
(`cabin_calendar.dfy`, module `CabinCalendar`).
- The grid maps a day string to a map from a half-hour label to a flag.
- There are sixteen labels, from `9:00 AM` to `4:30 PM`.
- A click on a cell records the selected day, label and index. It also records
  whether that one cell is occupied; this is the conflict flag.
- Confirming books `floor(duration / 0.5)` consecutive slots from the selected
  index, unless the conflict flag is set. Cancelling frees the same run of slots.
- Both loops skip indices past the last label without error.
- Both write the whole grid back to the browser's local storage under
  `cabin_<id>_weekly_bookings`. Loading reads it back, or starts from an empty grid.

The component is a class with the source's fields. `ConfirmBooking` and
`CancelBooking` run the source's loops over the map field. They are proved
against the functions `Booked` and `Freed`, which replay those loops one step
at a time. Closed forms of these functions are proved as lemmas
(`BookedClosedForm`, `FreedClosedForm`). The per-slot, per-day, idempotence,
truncation and book-then-cancel properties follow from them.

**The signup form's client-side validation** (`signup.dfy`, module `Signup`).
- The two regular expressions are written as predicates that follow their
  structure: the lookaheads `(?=.*[A-Z])` and `(?=.*\d)`, then `.+$` or `.{8,}$`.
- Lemmas prove that they mean "non-empty (or at least 8 characters), on one
  line, with an ASCII capital and an ASCII digit".
- `Evaluate` gives the decision of the three checks in their order.
- `OnSubmit` clears and sets the two error fields as the handler does. It
  returns whether the success branch, the redirect, was reached.

Behaviours of the code worth knowing:
- The number of slots is `floor(duration / 0.5)`.
- Confirming trusts the conflict flag computed at click time, and that flag covers the start slot only.
- Cancelling acts only on the local grid and local storage.
- The grid itself is what is saved and loaded.
- Book-then-cancel is not an exact inverse:
  - A booking whose start slot is free can run over a later slot that another
    booking holds. Cancelling it then frees that slot too (`CancelFreesOverlappedSlot`).
  - On a day that had no entry, it leaves an empty entry behind (`BookThenCancelLeavesEmptyDay`).
  - It restores every slot's occupancy when the booked run was entirely free (`BookThenCancel`).
- The popup offers Cancel only for an occupied slot, so the day entry then
  exists (`CancelFromOccupiedSlotSucceeds`). The missing-entry TypeError of
  `cancelBooking` is reachable only by a direct call.

## Model

| member | source | states |
|---|---|---|
| `CabinCalendar.Occupied` | src/app/cabins/cabin-calendar/cabin-calendar.component.ts:276-278 | a missing day or a missing label reads as free; otherwise the stored flag is returned |
| `CabinCalendar.CabinCalendarComponent.IsOccupied` | src/app/cabins/cabin-calendar/cabin-calendar.component.ts:276-278 | the component's lookup on its own grid: a missing day or label reads as free, otherwise the stored flag |
| `CabinCalendar.StorageKey` | src/app/cabins/cabin-calendar/cabin-calendar.component.ts:272 | the key is the cabin id framed by a 6-character prefix and a 16-character suffix |
| `CabinCalendar.StorageKeyDecodes` | src/app/cabins/cabin-calendar/cabin-calendar.component.ts:272 | the key starts with `cabin_`, ends with `_weekly_bookings`, and holds the cabin id between them |
| `CabinCalendar.StorageKeyInjective` | src/app/cabins/cabin-calendar/cabin-calendar.component.ts:302 | different cabins save their grids under different keys |
| `CabinCalendar.CabinCalendarComponent.GetSlotStatus` | src/app/cabins/cabin-calendar/cabin-calendar.component.ts:280-282 | the status is "Occupied" exactly when the slot is occupied and "Available" exactly when it is not |
| `CabinCalendar.Booked` | src/app/cabins/cabin-calendar/cabin-calendar.component.ts:295-301 | the booking loop never removes a day, and creates the selected day's entry once an in-range step runs |
| `CabinCalendar.Freed` | src/app/cabins/cabin-calendar/cabin-calendar.component.ts:308-313 | the cancel loop is defined only when it does not dereference a missing day; it never removes the day's entry, and with no entry it changes nothing |
| `CabinCalendar.BookedClosedForm` | src/app/cabins/cabin-calendar/cabin-calendar.component.ts:294-301 | the booking loop's result is the old grid with the day's entry (or a fresh one) gaining every in-range label of the run as true, or the old grid when no index is in range |
| `CabinCalendar.FreedClosedForm` | src/app/cabins/cabin-calendar/cabin-calendar.component.ts:307-313 | the cancel loop's result is the old grid with every in-range label of the run deleted from the day's entry, or the old grid when no index is in range |
| `CabinCalendar.BookedSlot` | src/app/cabins/cabin-calendar/cabin-calendar.component.ts:294-301 | after booking k units from index s, slot j of the day is occupied iff s <= j < s+k or it was occupied before; indices past the last label are skipped |
| `CabinCalendar.BookedOtherDays` | src/app/cabins/cabin-calendar/cabin-calendar.component.ts:298-299 | booking leaves every other day's entry, and its presence, exactly as it was |
| `CabinCalendar.BookedDayEntry` | src/app/cabins/cabin-calendar/cabin-calendar.component.ts:298-299 | a booking with an in-range start creates the day's entry, sets every label of the run to true, and keeps every other key of the entry and its value |
| `CabinCalendar.BookedIdempotent` | src/app/cabins/cabin-calendar/cabin-calendar.component.ts:299 | booking the same run twice gives the same grid as booking it once |
| `CabinCalendar.BookedTruncates` | src/app/cabins/cabin-calendar/cabin-calendar.component.ts:295-296 | a run reaching past the last label books exactly the labels up to the last one, with no error |
| `CabinCalendar.FreedSlot` | src/app/cabins/cabin-calendar/cabin-calendar.component.ts:308-311 | after cancelling k units from index s, slot j of the day is occupied iff it lies outside [s, s+k) and was occupied before |
| `CabinCalendar.FreedOtherDays` | src/app/cabins/cabin-calendar/cabin-calendar.component.ts:311 | cancelling leaves every other day's entry, and its presence, exactly as it was |
| `CabinCalendar.BookThenCancel` | src/app/cabins/cabin-calendar/cabin-calendar.component.ts:292-316 | when none of the run's slots was occupied, cancelling the run just booked is defined and restores the occupancy of every day and label |
| `CabinCalendar.BookThenCancelLeavesEmptyDay` | src/app/cabins/cabin-calendar/cabin-calendar.component.ts:298-311 | on a day without an entry, book then cancel yields the old grid plus an empty entry for that day |
| `CabinCalendar.CancelFreesOverlappedSlot` | src/app/cabins/cabin-calendar/cabin-calendar.component.ts:284-316 | with the start slot free, a booking runs over an already occupied later slot, and cancelling it then frees that slot |
| `CabinCalendar.CancelFromOccupiedSlotSucceeds` | src/app/cabins/cabin-calendar/cabin-calendar.component.ts:306-311 | when the selected start slot is occupied, which is when the popup offers Cancel, the cancel loop never meets a missing day entry |
| `CabinCalendar.IndexOf` | src/app/cabins/cabin-calendar/cabin-calendar.component.ts:319 | the result is -1 iff the label is absent, otherwise the first index holding it |
| `CabinCalendar.CabinCalendarComponent.constructor` | src/app/cabins/cabin-calendar/cabin-calendar.component.ts:225-241 | the initial field values: empty grid, no selection (index -1), popup closed, duration of one half hour |
| `CabinCalendar.CabinCalendarComponent.OnInit` | src/app/cabins/cabin-calendar/cabin-calendar.component.ts:245-250 | records the cabin id and the week, and loads that cabin's saved grid or an empty one |
| `CabinCalendar.CabinCalendarComponent.UpdateWeekFromDate` | src/app/cabins/cabin-calendar/cabin-calendar.component.ts:261-269 | sets the seven visible days and reloads the grid |
| `CabinCalendar.CabinCalendarComponent.LoadBookings` | src/app/cabins/cabin-calendar/cabin-calendar.component.ts:271-274 | the grid becomes the saved one for the cabin's key, or empty when nothing is saved, in which case every slot is free |
| `CabinCalendar.CabinCalendarComponent.OnSlotClick` | src/app/cabins/cabin-calendar/cabin-calendar.component.ts:284-290 | records day, label and index, sets the conflict flag to the clicked slot's occupancy and opens the popup |
| `CabinCalendar.CabinCalendarComponent.ConfirmBooking` | src/app/cabins/cabin-calendar/cabin-calendar.component.ts:292-304 | with the conflict flag set nothing changes; otherwise the grid becomes `Booked` of the old grid, is saved under the cabin's key, and the popup closes; no other field changes |
| `CabinCalendar.CabinCalendarComponent.CancelBooking` | src/app/cabins/cabin-calendar/cabin-calendar.component.ts:306-316 | a TypeError is raised exactly when the day has no entry and the run is non-empty, and then nothing changes; otherwise the grid becomes `Freed` of the old grid, is saved, and the popup closes |
| `CabinCalendar.CabinCalendarComponent.SubmitBooking` | src/app/cabins/cabin-calendar/cabin-calendar.component.ts:318-323 | when the chosen start time is a label, selects it on the chosen date at its first index as a click would; otherwise changes nothing |
| `Signup.UsernamePattern` | src/app/auth/signup/signup.component.ts:131 | the username expression, written as its two lookaheads and `.+$`; it never accepts the empty string |
| `Signup.PasswordPattern` | src/app/auth/signup/signup.component.ts:145 | the password expression, written as its two lookaheads and `.{8,}$`; it accepts only strings of 8 or more characters, all of which the username expression accepts too |
| `Signup.Evaluate` | src/app/auth/signup/signup.component.ts:131-150 | the username is rejected iff it fails the format or is taken, with the matching message; a password is rejected only with its own message and only when it fails its expression; acceptance needs a non-empty username and a password of 8 or more characters |
| `Signup.LookaheadMeaning` | src/app/auth/signup/signup.component.ts:131 | on a single-line string the lookahead `(?=.*X)` succeeds iff a character of class X occurs |
| `Signup.DotsToEndMeaning` | src/app/auth/signup/signup.component.ts:145 | `.{min,}$` from the start matches iff the string has at least min characters and no line terminator |
| `Signup.UsernamePatternMeaning` | src/app/auth/signup/signup.component.ts:131 | the username expression accepts exactly the non-empty single-line strings with an ASCII capital and an ASCII digit |
| `Signup.PasswordPatternMeaning` | src/app/auth/signup/signup.component.ts:145 | the password expression accepts exactly the single-line strings of 8 or more characters with an ASCII capital and an ASCII digit |
| `Signup.EvaluateMeaning` | src/app/auth/signup/signup.component.ts:131-150 | a malformed username is reported first, then a taken one, then a malformed password; the submit is accepted iff all three checks pass |
| `Signup.TakenNamesReachable` | src/app/auth/signup/signup.component.ts:138-142 | both taken names pass the username format, so they reach the taken-name check and are rejected as taken whatever the password |
| `Signup.SignupComponent.constructor` | src/app/auth/signup/signup.component.ts:118-122 | all form fields and both error messages start empty |
| `Signup.SignupComponent.OnSubmit` | src/app/auth/signup/signup.component.ts:126-156 | the error fields carry the message of the first failing check and are empty otherwise; at most one is non-empty; the password message appears only after both username checks pass; success is reached iff both are empty |

## Left out

- The Angular templates and styles of both components are markup. The popup's Close button, which sets `showBookingPopup` to false in the template, is not modelled as an operation.
- `getTodayDate`, `formatDate` and the date arithmetic of `updateWeekFromDate` depend on the browser's `Date` and locale formatting. Today's date is a constructor parameter. The seven visible day strings are a parameter of `OnInit` and `UpdateWeekFromDate`.
- Local storage is the class `LocalStorage`, whose `items` map holds one saved grid per key. JSON serialisation is taken to return the grid unchanged.
- `selectedDuration` is a natural number of half-hour units, `floor(hours / 0.5)`. A zero, negative or sub-half-hour duration in the source runs the loops zero times, and that is unit count 0 here.
- Strings are sequences of characters. The source's regular expressions and password length count UTF-16 code units, so a character outside the Basic Multilingual Plane counts twice there and once here.
- Lookups of keys that JavaScript objects inherit, such as `constructor`, are not modelled. Day keys are ISO dates and label keys come from the fixed label list.
- `alert`, `console.log` and `router.navigate` are side effects. The redirect is the `navigated` result of `OnSubmit`. The `email` field is only logged and is not validated.
- CabinCalendar.CabinCalendarComponent.ConfirmBooking: requires the popup to be open, because the Confirm button sits in it. Only a slot click opens the popup, and a click records a slot index. With the initial index -1, the source would write under the key `undefined`; that case is not modelled.
- CabinCalendar.CabinCalendarComponent.CancelBooking: requires the popup to be open, for the same reason as `ConfirmBooking`.
- CabinCalendar.CabinCalendarComponent.ConfirmBooking and CancelBooking: their loops build the new grid in a local map, which is assigned to the field after the loop. Nothing reads the field while the loop runs, so the in-place writes of the source are not shown one by one.
- CabinCalendar.CabinCalendarComponent.OnSlotClick: requires the label to be the one at the given index. The grid and `SubmitBooking` always pass a label together with its own index.
- The login component, the cabin list, the HTTP services and the bootstrap file are not part of this model. They are network calls and fixed data with no logic of their own.
