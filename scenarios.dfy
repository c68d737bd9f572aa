/** End-to-end runs of the booking flow over freshly created services, each
    starting from a ledger in which car "V" stands at office 1 from time 0
    and a booking that takes it from office 1 at time 10 to office 2 at
    time 20. */
module Scenarios {
  import opened Wrappers
  import Ledger
  import Payments
  import Booking

  const Car: Ledger.CarId := "V"
  const GoodCard: string := "4111"

  function Request(card: string): Booking.BookingRequest
  {
    Booking.BookingRequest(Some(Car), Some(7), Some(Booking.PaymentData(Some(card), Some(100))),
                           Some(10), Some(20), Some(1), Some(2))
  }

  /** The three services, wired together, before any request. */
  method Setup() returns (service: Booking.BookingService)
    ensures fresh(service) && fresh(service.office) && fresh(service.payments)
    ensures service.Valid()
    ensures service.records == [] && service.nextId == 1
    ensures service.office.rows == [Ledger.Availability(1, 1, Car, 0, None)] && service.office.nextId == 2
    ensures service.payments.rows == [] && service.payments.nextId == 1
    ensures Ledger.Consistent(service.office.rows)
  {
    var office := new Ledger.Office([Ledger.Availability(1, 1, Car, 0, None)], 2);
    var payments := new Payments.PaymentTable();
    service := new Booking.BookingService(office, payments);
  }

  /** A paid booking moves the car: afterwards it is current at office 2
      from time 20, and the one earlier row is the closed one at office 1. */
  method BookThenLook() returns (resp: Booking.CreateResponse, view: Ledger.CarView)
    ensures resp == Booking.Created(1)
    ensures view == Ledger.CarView(Ledger.LastAvailable(2, 20), [Ledger.Slot(1, 0, Some(10))])
  {
    var service := Setup();
    resp := service.NewBooking(Request(GoodCard), true, true);
    var rows := service.office.rows;
    assert rows == [Ledger.Availability(1, 1, Car, 0, Some(10)), Ledger.Availability(2, 2, Car, 20, None)];
    Ledger.NewestRowIsOpenRow(rows, 1);
    view := service.office.GetCarAvailability(Car);
    DescendingPair(rows);
  }

  /** The declined card: the booking fails with 500, the attempt is stored
      as REJECTED and the car stays where it was. */
  method DeclinedCard() returns (resp: Booking.CreateResponse, paid: seq<Payments.Payment>, view: Ledger.CarView)
    ensures resp == Booking.CreateFailed
    ensures paid == [Payments.Payment(1, Payments.Rejected, Payments.RejectedCard, 100)]
    ensures view == Ledger.CarView(Ledger.LastAvailable(1, 0), [])
  {
    var service := Setup();
    resp := service.NewBooking(Request(Payments.RejectedCard), true, true);
    paid := service.payments.rows;
    var rows := service.office.rows;
    Ledger.NewestRowIsOpenRow(rows, 0);
    view := service.office.GetCarAvailability(Car);
    SingleRow(rows);
  }

  /** Cancelling the booking reverses the payment and marks the record
      CANCELLED; the car stays at office 2, because the release deletes the
      closed row and does not reopen the car's row at office 1. */
  method BookThenCancel() returns (resp: Booking.ChangeResponse, status: Booking.Status,
                                   payment: Payments.PaymentStatus, view: Ledger.CarView)
    ensures resp == Booking.Changed && status == Booking.Cancelled && payment == Payments.Reversed
    ensures view == Ledger.CarView(Ledger.LastAvailable(2, 20), [])
  {
    var service := Setup();
    var created := service.NewBooking(Request(GoodCard), true, true);
    assert service.office.rows == [Ledger.Availability(1, 1, Car, 0, Some(10)), Ledger.Availability(2, 2, Car, 20, None)];
    assert service.records[0].id == 1;
    resp := service.CancelBooking(1, true, true);
    status := service.records[0].status;
    payment := service.payments.rows[0].status;
    var rows := service.office.rows;
    assert rows == [Ledger.Availability(2, 2, Car, 20, None)];
    Ledger.NewestRowIsOpenRow(rows, 0);
    view := service.office.GetCarAvailability(Car);
    SingleRow(rows);
  }

  /** A finished booking cannot be finished again. */
  method FinishTwice() returns (first: Booking.ChangeResponse, second: Booking.ChangeResponse)
    ensures first == Booking.Changed && second == Booking.NotNew
  {
    var service := Setup();
    var created := service.NewBooking(Request(GoodCard), true, true);
    assert service.office.rows == [Ledger.Availability(1, 1, Car, 0, Some(10)), Ledger.Availability(2, 2, Car, 20, None)];
    assert service.records[0].id == 1;
    first := service.EndBooking(1, true);
    second := service.EndBooking(1, true);
  }

  /** The ordered view of a one-row table is that row. */
  lemma SingleRow(rows: seq<Ledger.Availability>)
    requires |rows| == 1
    ensures |Ledger.SortByFromDesc(Ledger.Select(rows, Ledger.RowsOf(rows[0].car)))| == 1
  {
    AllSelected(rows, Ledger.RowsOf(rows[0].car));
  }

  /** A filter that selects every row selects the whole table. */
  lemma {:induction false} AllSelected(rows: seq<Ledger.Availability>, f: Ledger.Filter)
    requires forall i :: 0 <= i < |rows| ==> Ledger.Selects(f, rows[i])
    ensures Ledger.Select(rows, f) == rows
  {
    if rows != [] {
      assert Ledger.Selects(f, rows[0]);
      AllSelected(rows[1..], f);
      assert rows == [rows[0]] + rows[1..];
    }
  }

  /** The ordered view of the two rows a booking leaves is newest first. */
  lemma DescendingPair(rows: seq<Ledger.Availability>)
    requires |rows| == 2 && rows[0].car == rows[1].car && rows[0].from < rows[1].from
    ensures Ledger.SortByFromDesc(Ledger.Select(rows, Ledger.RowsOf(rows[0].car))) == [rows[1], rows[0]]
  {
    var f := Ledger.RowsOf(rows[0].car);
    var s := Ledger.SortByFromDesc(Ledger.Select(rows, f));
    AllSelected(rows, f);
    assert rows == [rows[0]] + [rows[1]];
    TwoSorted(s, rows[0], rows[1]);
  }

  lemma TwoSorted(s: seq<Ledger.Availability>, older: Ledger.Availability, newer: Ledger.Availability)
    requires Ledger.DescendingByFrom(s) && multiset(s) == multiset{older, newer}
    requires older.from < newer.from
    ensures s == [newer, older]
  {
    assert |s| == 2;
    assert s == [s[0], s[1]];
    assert s[1].from <= s[0].from;
    SameTwo(s[0], s[1], older, newer);
  }

  /** Two two-element multisets are equal only up to the order of their
      elements. */
  lemma SameTwo<T>(a: T, b: T, x: T, y: T)
    requires multiset{a, b} == multiset{x, y}
    ensures (a == x && b == y) || (a == y && b == x)
  {
    assert a in multiset{x, y};
    if a == x {
      assert multiset{a, b} - multiset{a} == multiset{b};
      assert multiset{x, y} - multiset{x} == multiset{y};
    } else {
      assert multiset{a, b} - multiset{a} == multiset{b};
      assert multiset{x, y} - multiset{y} == multiset{x};
    }
  }
}
