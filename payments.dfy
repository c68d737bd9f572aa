/** The payment service's `payment` table: `pay` records every attempt,
    declined ones included, and `reverse` marks a payment as given back. */
module Payments {
  import opened Wrappers

  /** The card number the service declines, standing in for a real
      processor's refusal. */
  const RejectedCard: string := "test_reject"

  datatype PaymentStatus = Paid | Rejected | Reversed

  datatype Payment = Payment(id: nat, status: PaymentStatus, ccNumber: string, price: int)

  datatype PayResponse =
    | PayBadBody               // 400 "bad body"
    | PayRejected              // 403 "rejected", no payment_id
    | PayCreated(paymentId: nat) // 201 with the new payment_id

  function PayCode(r: PayResponse): (code: int)
    ensures Ok(code) <==> r.PayCreated?
  {
    match r
    case PayBadBody => 400
    case PayRejected => 403
    case PayCreated(_) => 201
  }

  datatype ReverseResponse =
    | PaymentNotFound  // 404 "payment not found"
    | PaymentReversed  // 201

  function ReverseCode(r: ReverseResponse): (code: int)
    ensures Ok(code) <==> r == PaymentReversed
  {
    match r
    case PaymentNotFound => 404
    case PaymentReversed => 201
  }

  /** The primary key of a row. */
  function IdOf(p: Payment): int
  {
    p.id
  }

  /** The table after row i was marked REVERSED. */
  function MarkReversed(rows: seq<Payment>, i: nat): seq<Payment>
    requires i < |rows|
  {
    rows[i := rows[i].(status := Reversed)]
  }

  /** Reversing keeps every key where it was, so reversing the same payment
      again finds the same row and leaves the table as the first reversal
      left it. */
  lemma {:induction false} ReverseIsIdempotent(rows: seq<Payment>, id: int)
    requires IndexOf(rows, IdOf, id).Some?
    ensures var i := IndexOf(rows, IdOf, id).value;
      && IndexOf(MarkReversed(rows, i), IdOf, id) == Some(i)
      && MarkReversed(MarkReversed(rows, i), i) == MarkReversed(rows, i)
  {
    var i := IndexOf(rows, IdOf, id).value;
    var r := MarkReversed(rows, i);
    assert forall k :: 0 <= k < |rows| ==> r[k].id == rows[k].id;
    assert r[i].id == id;
    assert forall k :: 0 <= k < i ==> r[k].id != id;
  }

  class PaymentTable {
    var rows: seq<Payment>
    /** The next autoincrement key. */
    var nextId: nat

    ghost predicate Valid()
      reads this
    {
      && (forall i :: 0 <= i < |rows| ==> rows[i].id < nextId)
      && (forall i, j :: 0 <= i < j < |rows| ==> rows[i].id != rows[j].id)
    }

    constructor ()
      ensures Valid() && rows == [] && nextId == 1
    {
      rows := [];
      nextId := 1;
    }

    /** POST /payment/pay with the body fields `cc_number` and `ammount`. */
    method Pay(ccNumber: Option<string>, amount: Option<int>) returns (r: PayResponse)
      requires Valid()
      modifies this
      ensures Valid()
      ensures ccNumber.None? || amount.None? ==>
        r == PayBadBody && unchanged(this)
      ensures ccNumber.Some? && amount.Some? ==>
        && nextId == old(nextId) + 1
        && rows == old(rows) + [Payment(old(nextId), if ccNumber.value == RejectedCard then Rejected else Paid, ccNumber.value, amount.value)]
        && r == if ccNumber.value == RejectedCard then PayRejected else PayCreated(old(nextId))
    {
      if ccNumber.None? || amount.None? {
        return PayBadBody;
      }
      if ccNumber.value == RejectedCard {
        rows := rows + [Payment(nextId, Rejected, ccNumber.value, amount.value)];
        nextId := nextId + 1;
        return PayRejected;
      }
      var paymentId := nextId;
      rows := rows + [Payment(paymentId, Paid, ccNumber.value, amount.value)];
      nextId := nextId + 1;
      r := PayCreated(paymentId);
    }

    /** POST /payment/<id>/reverse: mark the payment REVERSED whatever its
        status was. */
    method Reverse(paymentId: int) returns (r: ReverseResponse)
      requires Valid()
      modifies this
      ensures Valid() && nextId == old(nextId)
      ensures IndexOf(old(rows), IdOf, paymentId).None? ==> r == PaymentNotFound && unchanged(this)
      ensures IndexOf(old(rows), IdOf, paymentId).Some? ==>
        r == PaymentReversed && rows == MarkReversed(old(rows), IndexOf(old(rows), IdOf, paymentId).value)
    {
      var found := IndexOf(rows, IdOf, paymentId);
      if found.None? {
        return PaymentNotFound;
      }
      var i := found.value;
      rows := rows[i := rows[i].(status := Reversed)];
      r := PaymentReversed;
    }
  }
}
