/** The booking service: the `car_booking` table and the three handlers that
    drive the payment and office services. Each remote call is a call into
    the Payments.PaymentTable or Ledger.Office object; a `...Up` flag that is
    false stands for a call that never reaches the other service's handler
    (connection failure, authentication refusal), which the caller sees as
    a failed call and the other service does not see at all. */
module Booking {
  import opened Wrappers
  import Ledger
  import Payments

  datatype Status = New | Cancelled | Finished

  datatype CarBooking = CarBooking(
    id: nat,
    car: Ledger.CarId,
    userId: int,
    paymentId: nat,
    bookingStart: int,
    bookingEnd: int,
    startOffice: int,
    endOffice: int,
    status: Status)

  datatype PaymentData = PaymentData(ccNumber: Option<string>, price: Option<int>)

  /** The JSON body of POST /booking; None marks a missing field. */
  datatype BookingRequest = BookingRequest(
    car: Option<Ledger.CarId>,
    userId: Option<int>,
    paymentData: Option<PaymentData>,
    bookingStart: Option<int>,
    bookingEnd: Option<int>,
    startOffice: Option<int>,
    endOffice: Option<int>)
  {
    predicate Complete()
    {
      && car.Some? && userId.Some?
      && paymentData.Some? && paymentData.value.ccNumber.Some? && paymentData.value.price.Some?
      && bookingStart.Some? && bookingEnd.Some? && startOffice.Some? && endOffice.Some?
    }

    function Card(): string
      requires Complete()
    {
      paymentData.value.ccNumber.value
    }

    function Price(): int
      requires Complete()
    {
      paymentData.value.price.value
    }

    /** The body of the PUT sent to the office service. */
    function Move(): Ledger.BookRequest
      requires Complete()
    {
      Ledger.BookRequest(bookingStart, bookingEnd, startOffice, endOffice)
    }

    /** The record stored once payment and reservation succeeded. */
    function Record(id: nat, paymentId: nat): CarBooking
      requires Complete()
    {
      CarBooking(id, car.value, userId.value, paymentId, bookingStart.value, bookingEnd.value,
                 startOffice.value, endOffice.value, New)
    }
  }

  datatype CreateResponse =
    | CreateBadBody            // 400 "bad body"
    | CreateFailed             // 500 "bad api request"
    | Created(bookingId: nat)  // 201

  function CreateCode(r: CreateResponse): (code: int)
    ensures Ok(code) <==> r.Created?
  {
    match r
    case CreateBadBody => 400
    case CreateFailed => 500
    case Created(_) => 201
  }

  /** Responses of the cancel and finish handlers. */
  datatype ChangeResponse =
    | BookingNotFound  // 404 "car booking not found"
    | NotNew           // 400 "this booking is not new" / "this booking has ended"
    | ChangeFailed     // 500 "bad api request"
    | Changed          // 200

  function ChangeCode(r: ChangeResponse): (code: int)
    ensures Ok(code) <==> r == Changed
  {
    match r
    case BookingNotFound => 404
    case NotNew => 400
    case ChangeFailed => 500
    case Changed => 200
  }

  /** The primary key of a record. */
  function IdOf(b: CarBooking): int
  {
    b.id
  }

  /** Records are only added, and a stored record changes only in its
      status and only while that status is NEW: CANCELLED and FINISHED are
      terminal. */
  ghost predicate OneWay(before: seq<CarBooking>, after: seq<CarBooking>)
  {
    && |before| <= |after|
    && (forall k :: 0 <= k < |before| ==>
          after[k] == before[k] || (before[k].status == New && after[k] == before[k].(status := after[k].status)))
  }

  /** Runs of handlers compose: a record that reached CANCELLED or FINISHED
      after any number of steps never changes again. */
  lemma {:induction false} OneWayComposes(a: seq<CarBooking>, b: seq<CarBooking>, c: seq<CarBooking>)
    requires OneWay(a, b) && OneWay(b, c)
    ensures OneWay(a, c)
  {
    forall k | 0 <= k < |a|
      ensures c[k] == a[k] || (a[k].status == New && c[k] == a[k].(status := c[k].status))
    {
      if b[k] != a[k] {
        assert b[k].status != New;
        assert c[k] == b[k];
      }
    }
  }

  class BookingService {
    var records: seq<CarBooking>
    /** The next autoincrement key of `car_booking`. */
    var nextId: nat
    /** The office service this service calls. */
    const office: Ledger.Office
    /** The payment service this service calls. */
    const payments: Payments.PaymentTable

    ghost predicate Valid()
      reads this, office, payments
    {
      && (forall i :: 0 <= i < |records| ==> records[i].id < nextId)
      && (forall i, j :: 0 <= i < j < |records| ==> records[i].id != records[j].id)
      && office.Valid()
      && payments.Valid()
    }

    constructor (office: Ledger.Office, payments: Payments.PaymentTable)
      requires office.Valid() && payments.Valid()
      ensures Valid()
      ensures records == [] && nextId == 1 && this.office == office && this.payments == payments
    {
      records := [];
      nextId := 1;
      this.office := office;
      this.payments := payments;
    }

    /** POST /booking: pay, then reserve the car, then store the record. A
        failed reservation leaves the payment in place. */
    method NewBooking(req: BookingRequest, paymentUp: bool, officeUp: bool) returns (resp: CreateResponse)
      requires Valid()
      modifies this, office, payments
      ensures Valid()
      ensures OneWay(old(records), records)
      ensures old(Ledger.Consistent(office.rows)) ==> Ledger.Consistent(office.rows)
      ensures !resp.Created? ==> records == old(records) && nextId == old(nextId)
      // missing field: 400, no remote call
      ensures !req.Complete() ==> resp == CreateBadBody && unchanged(office, payments)
      // payment call not delivered: 500, nothing else happens
      ensures req.Complete() && !paymentUp ==> resp == CreateFailed && unchanged(office, payments)
      // a delivered payment call always records the attempt
      ensures req.Complete() && paymentUp ==>
        && payments.nextId == old(payments.nextId) + 1
        && payments.rows == old(payments.rows) +
             [Payments.Payment(old(payments.nextId),
                               if req.Card() == Payments.RejectedCard then Payments.Rejected else Payments.Paid,
                               req.Card(), req.Price())]
      // declined card: 500, no office call
      ensures req.Complete() && paymentUp && req.Card() == Payments.RejectedCard ==>
        resp == CreateFailed && unchanged(office)
      // reservation not made: 500, no record, the PAID row stays
      ensures req.Complete() && paymentUp && req.Card() != Payments.RejectedCard &&
              (!officeUp || Ledger.BookDecision(old(office.rows), req.car.value, req.Move()) != Ledger.Booked) ==>
        resp == CreateFailed && unchanged(office)
      // success: the move is made and one NEW record is stored
      ensures req.Complete() && paymentUp && req.Card() != Payments.RejectedCard && officeUp &&
              Ledger.BookDecision(old(office.rows), req.car.value, req.Move()) == Ledger.Booked ==>
        && resp == Created(old(nextId))
        && records == old(records) + [req.Record(old(nextId), old(payments.nextId))]
        && nextId == old(nextId) + 1
        && office.nextId == old(office.nextId) + 1
        && office.rows == Ledger.Split(old(office.rows),
                                       Ledger.OneOrNone(old(office.rows), Ledger.OpenRowOf(req.car.value)).index,
                                       req.bookingStart.value, req.bookingEnd.value, req.endOffice.value,
                                       old(office.nextId))
    {
      if !req.Complete() {
        return CreateBadBody;
      }
      var car, userId := req.car.value, req.userId.value;

      // pay
      if !paymentUp {
        return CreateFailed;
      }
      var paid := payments.Pay(Some(req.Card()), Some(req.Price()));
      if !Ok(Payments.PayCode(paid)) {
        return CreateFailed;
      }
      var paymentId := paid.paymentId;

      // take the car out of the schedule
      if !officeUp {
        return CreateFailed;
      }
      var moved := office.Book(car, req.Move());
      if !Ok(Ledger.BookCode(moved)) {
        return CreateFailed;
      }

      // store the booking
      var bookingId := nextId;
      records := records + [CarBooking(bookingId, car, userId, paymentId, req.bookingStart.value,
                                       req.bookingEnd.value, req.startOffice.value, req.endOffice.value, New)];
      nextId := nextId + 1;
      resp := Created(bookingId);
    }

    /** DELETE /booking/<id>: give the money back, then delete the ledger
        row the booking closed, then mark the record CANCELLED. Either call
        failing stops the handler with the record still NEW. */
    method CancelBooking(bookingId: int, paymentUp: bool, officeUp: bool) returns (resp: ChangeResponse)
      requires Valid()
      modifies this, office, payments
      ensures Valid() && nextId == old(nextId)
      ensures OneWay(old(records), records)
      ensures old(Ledger.Consistent(office.rows)) ==> Ledger.Consistent(office.rows)
      ensures resp != Changed ==> records == old(records)
      ensures IndexOf(old(records), IdOf, bookingId).None? ==>
        resp == BookingNotFound && unchanged(office, payments)
      ensures IndexOf(old(records), IdOf, bookingId).Some? ==>
        var b := old(records)[IndexOf(old(records), IdOf, bookingId).value];
        && (b.status != New ==> resp == NotNew && unchanged(office, payments))
        && (b.status == New && !paymentUp ==> resp == ChangeFailed && unchanged(office, payments))
        && (b.status == New && paymentUp && IndexOf(old(payments.rows), Payments.IdOf, b.paymentId).None? ==>
              resp == ChangeFailed && unchanged(office, payments))
        && (b.status == New && paymentUp && IndexOf(old(payments.rows), Payments.IdOf, b.paymentId).Some? ==>
              && payments.nextId == old(payments.nextId)
              && payments.rows == Payments.MarkReversed(old(payments.rows), IndexOf(old(payments.rows), Payments.IdOf, b.paymentId).value)
              && (!officeUp || Ledger.ReleaseDecision(old(office.rows), b.car, Some(b.bookingStart), Some(b.startOffice)) != Ledger.Released ==>
                    resp == ChangeFailed && unchanged(office))
              && (officeUp && Ledger.ReleaseDecision(old(office.rows), b.car, Some(b.bookingStart), Some(b.startOffice)) == Ledger.Released ==>
                    && resp == Changed
                    && records == old(records)[IndexOf(old(records), IdOf, bookingId).value := b.(status := Cancelled)]
                    && office.nextId == old(office.nextId)
                    && office.rows == Ledger.Remove(old(office.rows),
                         Ledger.OneOrNone(old(office.rows), Ledger.ClosedRowOf(b.car, b.startOffice, b.bookingStart)).index)))
    {
      var found := IndexOf(records, IdOf, bookingId);
      if found.None? {
        return BookingNotFound;
      }
      var k := found.value;
      var b := records[k];
      if b.status != New {
        return NotNew;
      }

      // give the money back
      if !paymentUp {
        return ChangeFailed;
      }
      var reversed := payments.Reverse(b.paymentId);
      if !Ok(Payments.ReverseCode(reversed)) {
        return ChangeFailed;
      }

      // delete the row the booking closed
      if !officeUp {
        return ChangeFailed;
      }
      var released := office.DeleteCarAvailability(b.car, Some(b.bookingStart), Some(b.startOffice));
      if !Ok(Ledger.ReleaseCode(released)) {
        return ChangeFailed;
      }

      records := records[k := b.(status := Cancelled)];
      resp := Changed;
    }

    /** PATCH /booking/<id>/finish: delete the ledger row the booking closed,
        then mark the record FINISHED. No payment call is made. */
    method EndBooking(bookingId: int, officeUp: bool) returns (resp: ChangeResponse)
      requires Valid()
      modifies this, office
      ensures Valid() && nextId == old(nextId)
      ensures OneWay(old(records), records)
      ensures old(Ledger.Consistent(office.rows)) ==> Ledger.Consistent(office.rows)
      ensures resp != Changed ==> records == old(records)
      ensures IndexOf(old(records), IdOf, bookingId).None? ==> resp == BookingNotFound && unchanged(office)
      ensures IndexOf(old(records), IdOf, bookingId).Some? ==>
        var b := old(records)[IndexOf(old(records), IdOf, bookingId).value];
        && (b.status != New ==> resp == NotNew && unchanged(office))
        && (b.status == New &&
            (!officeUp || Ledger.ReleaseDecision(old(office.rows), b.car, Some(b.bookingStart), Some(b.startOffice)) != Ledger.Released) ==>
              resp == ChangeFailed && unchanged(office))
        && (b.status == New && officeUp &&
            Ledger.ReleaseDecision(old(office.rows), b.car, Some(b.bookingStart), Some(b.startOffice)) == Ledger.Released ==>
              && resp == Changed
              && records == old(records)[IndexOf(old(records), IdOf, bookingId).value := b.(status := Finished)]
              && office.nextId == old(office.nextId)
              && office.rows == Ledger.Remove(old(office.rows),
                   Ledger.OneOrNone(old(office.rows), Ledger.ClosedRowOf(b.car, b.startOffice, b.bookingStart)).index))
    {
      var found := IndexOf(records, IdOf, bookingId);
      if found.None? {
        return BookingNotFound;
      }
      var k := found.value;
      var b := records[k];
      if b.status != New {
        return NotNew;
      }

      // delete the row the booking closed
      if !officeUp {
        return ChangeFailed;
      }
      var released := office.DeleteCarAvailability(b.car, Some(b.bookingStart), Some(b.startOffice));
      if !Ok(Ledger.ReleaseCode(released)) {
        return ChangeFailed;
      }

      records := records[k := b.(status := Finished)];
      resp := Changed;
    }
  }
}
