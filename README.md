# Car rental booking saga, modelled in Dafny

The repository is a car-rental system split into small Flask services. This
project models five of them:

- **Office ledger** (`ledger.dfy`, module `Ledger`). This is the
  `available_car` table. Each row is an availability interval: a car stands
  at an office from `available_from` until `available_to`. A missing end
  time marks the car's open, current row. The model covers the booking
  move, which closes the open row and opens a row at the destination
  office, and the release, which deletes a closed row again. It also covers
  the two read-side views.
- **Payment table** (`payments.dfy`, module `Payments`). `pay` stores
  every attempt, declined ones included. `reverse` marks a payment as
  given back.
- **Booking orchestrator** (`booking.dfy`, module `Booking`). This is the
  `car_booking` table plus the three handlers that drive payment and
  office in a fixed order: create a booking, cancel it, finish it.
- **Statistics** (`statistics.dfy`, module `Statistics`). This is the
  `stat_record` table and the two report loops that count records.
- **Gateway** (`gateway.dfy`, module `Gateway`). This is the prefix
  routing of `/<path>` to a service.

`scenarios.dfy` (module `Scenarios`) wires fresh services together and
proves four complete runs of the booking flow. `wrappers.dfy` holds
`Option` and `Ok`, the `requests` library's success test on a status code.

How the model is built:

- Each table is a class field of type `seq`, with an autoincrement
  counter.
- Each handler is a method whose `modifies` clause names the tables it
  writes.
- A database session is one atomic step.
- A remote call is a direct call into the other service's object. A
  flag (`paymentUp`, `officeUp`) says whether the call reached that
  handler at all. If it did not (connection or authentication failure),
  the caller sees a failed call and the callee is untouched.
- SQLAlchemy's `one_or_none()` has three outcomes: no row, one row, or
  `MultipleResultsFound`. The model keeps all three.

The invariant that matters is `Ledger.Consistent`:

- no row ends before it starts;
- any two rows of the same car are ordered in time, with the earlier one
  closed before the later one starts.

The model proves three things about it:

- Booking and release preserve it.
- Under it, neither lookup can be ambiguous, and a car's open row is its
  newest row.
- Every booking handler preserves it.

The handlers do not form a fully compensating saga, and the model keeps
their behaviour as written:

- **No compensation when the office refuses.** If the office refuses a
  reservation after the payment went through, `new_booking` returns 500
  and the payment stays PAID (booking/booking.py:77-78). A compensating
  saga would reverse the payment here; the code does not.
- **A declined card gives 500.** The payment service answers 403. The
  booking handler turns that, like any other failure, into 500 "bad api
  request" (booking/booking.py:63-64). There is no separate
  payment-rejected result.
- **A failed release blocks the status change.** In both cancel and
  finish, if deleting the ledger row fails, the handler returns 500 and
  the record stays NEW (booking/booking.py:126-127, 158-159). The status
  change is gated on the release, not made regardless of it.
- **Finish always calls the release.** No setting skips it
  (booking/booking.py:153-159).
- **Release deletes the row and reopens nothing.** It deletes the row the
  booking closed (office/office.py:187-195) and does not reopen the
  interval the booking cut short. `Ledger.ReleaseUndoesOnlyTheClose`
  states that asymmetry exactly. So interval rows are deleted whenever a
  booking is cancelled or finished.

## Model

| member | source | states |
|---|---|---|
| Ledger.OneOrNone | office/office.py:150-155 | `one_or_none()` over a filtered table: Absent iff no row matches; Unique(i) gives a matching row and no other matches; Ambiguous iff two distinct rows match (the MultipleResultsFound exception) |
| Ledger.Select | office/office.py:91-95 | the rows an equality filter returns: a row occurs in the result as often as in the table if the filter selects it, otherwise not at all |
| Ledger.SortByFromDesc | office/office.py:94 | `ORDER BY available_from DESC`: the result is ordered newest first and is a permutation of its input |
| Ledger.NewestFirst | office/office.py:91-98 | the ordered query is empty iff the car has no row; otherwise its first row is one of the car's rows, with the greatest `available_from` |
| Ledger.OpenRowIsUnique | office/office.py:150-155 | in a consistent table the open-row lookup of the booking move is never ambiguous |
| Ledger.ClosedRowIsUnique | office/office.py:187-193 | in a consistent table the lookup of the release (`available_to`, office, car) is never ambiguous |
| Ledger.OpenRowIsLatest | office/office.py:150-155 | in a consistent table every other row of a car with an open row is closed and ends before the open row starts |
| Ledger.NewestRowIsOpenRow | office/office.py:103-105 | in a consistent table the `last_available` row of the car view is the car's open row |
| Ledger.BookCode | office/office.py:140-176 | the booking move answers a success code exactly when the outcome is Booked; every refusal is a 4xx or 5xx |
| Ledger.SplitKeepsConsistent | office/office.py:166-175 | closing the open row at a start inside its interval and adding an open row from a strictly later end keeps every car's intervals well-formed and totally ordered |
| Ledger.SplitLeavesOneOpenRow | office/office.py:150-175 | in any table where the open-row lookup found one row and the window check passed, after the move the car has exactly one open row, the new one, at the destination office from the booking's end; the closed row ends at the booking's start, before that end |
| Ledger.ReleaseCode | office/office.py:181-198 | the release answers a success code exactly when the outcome is Released |
| Ledger.Remove | office/office.py:194-195 | deleting row i leaves all other rows in their order |
| Ledger.RemoveKeepsConsistent | office/office.py:194-195 | deleting any row keeps the table consistent |
| Ledger.ReleaseUndoesOnlyTheClose | office/office.py:187-195 | in a consistent table, right after the booking, the release that booking issues finds exactly the row the booking closed, and deleting it leaves the table without the car's former open row plus the new open row: the cut interval is not reopened |
| Ledger.LaterBookingKeepsClosedRow | office/office.py:166-175 | in a consistent table a later booking, of the same car or another, leaves the release lookup of an earlier booking's closed row finding that same row alone |
| Ledger.SlotsAfterFirst | office/office.py:106-107 | the loop over all rows but the first builds one `offices` entry (office, from, to) per row, in order |
| Ledger.SlotsStayDescending | office/office.py:94-107 | the `offices` entries are newest first and none is newer than `last_available` |
| Ledger.Office.Book | office/office.py:138-176 | PUT booking move: bad body, car unavailable, wrong office (with the real office and start), bad window (with the real start) or several open rows leave the table unchanged; otherwise the open row is closed at the start and an open row at the destination is added from the end under the next id; consistency is preserved |
| Ledger.Office.DeleteCarAvailability | office/office.py:179-198 | DELETE release: bad body, not found or several matches leave the table unchanged; otherwise exactly the matching closed row is deleted; no row is added; consistency is preserved |
| Ledger.Office.GetCarAvailabilityInOffice | office/office.py:69-85 | None (404) iff the car has no row at the office; otherwise exactly that car's rows at that office, newest first |
| Ledger.Office.GetCarAvailability | office/office.py:88-109 | CarNotAvailable (404) iff the car has no row; otherwise `last_available` is the newest row and `offices` are all the other rows, in descending order of `from` |
| Payments.PayCode | payment/payment.py:34-55 | the reply is a success code exactly when a payment was created; bad body (400) and the declined card (403) are errors |
| Payments.ReverseCode | payment/payment.py:59-68 | the reply is a success code exactly when the payment was reversed; an unknown id (404) is an error |
| Payments.ReverseIsIdempotent | payment/payment.py:59-68 | reversing the same payment twice finds the same row and leaves the table as one reversal did |
| Payments.PaymentTable.Pay | payment/payment.py:34-55 | a missing field changes nothing (400); otherwise one row is appended under the next id, REJECTED for the test card (403, no id) and PAID otherwise, with the new id returned (201) |
| Payments.PaymentTable.Reverse | payment/payment.py:59-68 | an unknown id changes nothing (404); otherwise that row alone becomes REVERSED, whatever its status was (201) |
| Booking.CreateCode | booking/booking.py:42-96 | the reply is a success code exactly when a booking was created; bad body (400) and every failed remote step (500) are errors |
| Booking.ChangeCode | booking/booking.py:99-166 | the reply is a success code exactly when the status was changed; unknown id (404), not NEW (400) and a failed remote step (500) are errors |
| Wrappers.IndexOf | booking/booking.py:102 | the lookup by primary key (here and at payment/payment.py:63) finds the first row with that id, and finds none exactly when no row has it |
| Booking.OneWayComposes | booking/booking.py:105-106 | the one-way status rule (records only added; a record changes only its status, and only while NEW) holds across any sequence of handler runs |
| Booking.BookingService.NewBooking | booking/booking.py:42-96 | bad body: nothing happens. Undelivered payment call: nothing happens. A delivered payment call always records the attempt. A declined card never reaches the office. An office failure returns 500, stores no record and leaves the PAID row. Success moves the car and stores one NEW record with the new payment id. Records change one way; ledger consistency is preserved |
| Booking.BookingService.CancelBooking | booking/booking.py:99-136 | unknown id gives 404 and not-NEW gives 400, with no remote call. A reversal that does not reach the payment service changes nothing. A refused or undelivered release leaves the payment reversed and the record NEW. Success marks the payment REVERSED, deletes the closed ledger row and sets the record CANCELLED, changing nothing else |
| Booking.BookingService.EndBooking | booking/booking.py:139-166 | as cancel, but with no payment call: success deletes the closed ledger row and sets the record FINISHED |
| Statistics.Tally | statistics/statistics.py:44-46 | the default-dictionary count loop: the keys are exactly the values seen, each count is that value's number of occurrences (at least one), and the counts add up to the number of records |
| Statistics.TotalIncrement | statistics/statistics.py:46 | one `+= 1` on a default-zero entry raises the sum of all counts by exactly one |
| Statistics.RecordCountsOnce | statistics/statistics.py:31-33 | a stored record raises the count of its own office and car model by one and leaves every other count as it was |
| Statistics.RecordCode | statistics/statistics.py:23-35 | the reply is a success code exactly when a record was created; bad body (400) is an error |
| Statistics.StatTable.CreateRecord | statistics/statistics.py:23-35 | a missing field changes nothing and answers bad body (400); otherwise exactly one record with the given model and office is appended under the next id and the answer is created (201) |
| Statistics.StatTable.BookingByModels | statistics/statistics.py:39-48 | counts the records per office, despite the route's name: the keys are exactly the offices present, each with its number of records |
| Statistics.StatTable.BookingByOffices | statistics/statistics.py:51-60 | counts the records per car model, despite the route's name: the keys are exactly the car models present, each with its number of records |
| Gateway.FirstMatch | gateway/gateway.py:115-116 | the first table entry, in iteration order, whose key is a prefix of the path; none exactly when no key is a prefix |
| Gateway.Route | gateway/gateway.py:109-124 | no cookie gives "bad token" and an undecodable cookie gives the token error. A decoded cookie never gives a token failure, and the result is no route exactly when no key is a prefix of the path; a forward goes to the first matching service, with URL `http://<service>/<path>` and the full path kept |
| Gateway.RouteCode | gateway/gateway.py:92-124 | the token failures answer 401, no route answers 400, and a forward answers with the downstream code |
| Gateway.KeyRoutesToItsService | gateway/gateway.py:27-33 | the five keys start with different letters, so any path starting with a key is forwarded to that key's service, whatever follows |
| Gateway.PrefixIsNotASegment | gateway/gateway.py:116 | matching is on the raw string prefix: `carsX/1` is forwarded to the car service |
| Gateway.UnknownPrefixIsRefused | gateway/gateway.py:124 | a path under no key is refused with 400 |
| Scenarios.BookThenLook | booking/booking.py:42-96 | a paid booking of a car at office 1 from 0, over [10, 20] to office 2, is created as id 1; afterwards the car view shows office 2 from 20, with the closed row (office 1, 0 to 10) as history |
| Scenarios.DeclinedCard | booking/booking.py:57-64 | with the test card the booking fails with 500, one REJECTED payment is stored, and the car is still at office 1 from 0 |
| Scenarios.BookThenCancel | booking/booking.py:99-136 | cancelling that booking succeeds: the payment is REVERSED, the record CANCELLED, and the car is shown at office 2 from 20 with no history; its row at office 1 is not restored |
| Scenarios.FinishTwice | booking/booking.py:139-146 | finishing that booking succeeds once; a second finish is refused as not NEW |

## Left out

- HTTP framing itself is left out: JSON encoding, response bodies and error texts. Each handler's result is a datatype with one constructor per response, mapped to its status code.
- Service authentication is left out: `authorized_request` with its token refresh and single retry on 401, `requires_auth`, and the `/token` endpoint (payment/payment.py:24-31). payment/auth.py is not part of this model. A remote call refused by authentication is one of the `...Up = false` cases.
- An observation, not verified: booking's `make_authorized_request` (booking/booking.py:38-39) sends no Authorization header, and `pay` and `reverse` require one (payment/payment.py:35, 60). If payment/auth.py answers 401 to a missing header, as statistics/auth.py:37-39 does, every payment call from booking is refused: `paymentUp = false` is then what the code does, and the paid runs in `scenarios.dfy` assume a credential the code never sends.
- Booking.BookingService.NewBooking, Booking.BookingService.CancelBooking and Booking.BookingService.EndBooking: a remote call has two fates in the model, never delivered (`...Up = false`) or delivered with its reply seen. The third fate is left out: the other service commits but its reply is lost (a dropped connection makes `requests` raise, and no call sets a timeout; booking/booking.py:57-62, 69-76, 113-116, 121-125, 153-157). The handler then fails after the other service has changed. `new_booking` can fail with the car already moved and no booking record, which orphans the closed ledger row: no release will ever target it. `cancel_booking` can fail with the payment already REVERSED. The `unchanged` clauses these handlers state for a failed call hold only under the two-fate model.
- Requests are handled one at a time, each session atomically. Concurrent bookings or cancellations of the same car or record, and the races they allow, are not modelled.
- The re-read of the booking with `.one()` before the status update (booking/booking.py:131-133, 163) always finds the record, because requests run one at a time. Its `if not car_booking` branch is dead and is not modelled.
- The other office endpoints are left out: the office list, the per-office car list, and adding or deleting a car at an office (office/office.py:51-66, 112-135). Stocking is the `Ledger.Office` constructor, which takes the initial rows.
- The constant `"car": None` of the car view (office/office.py:101) is left out.
- `Ledger.SortByFromDesc` fixes one order among rows with equal `available_from`. SQL leaves that order unspecified, so the model's choice is one of the allowed ones.
- `int()` conversion of JSON fields is modelled in the office handlers only (office/office.py:141-144, 182-183): there a missing or unconvertible field is `None`. The booking handler converts nothing (booking/booking.py:45-52), and its request fields are integers or absent. So the model does not capture a booking request whose `booking_start` or `booking_end` is present but not an integer: booking accepts it and takes the payment, the office refuses it as a bad body, and booking answers 500 with the PAID row kept.
- The booking table declares `car_uuid` as Integer (booking/booking.py:28). The office table stores it as Text. The model uses one string car id throughout.
- Gateway: only the routing decision is modelled. The forwarded method, body and headers are left out, and so are the token retry of the forwarded call, `hello_world`, the CORS headers and the unused `requires_auth` decorator. The downstream status code is a parameter of `Gateway.RouteCode`. JWT decoding is the `Cookie` value it produced.
- The car service, the session service, the front end and statistics/auth.py are not part of this model. The booking handlers make no statistics call, so none is modelled.
