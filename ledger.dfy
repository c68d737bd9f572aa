/** The office service's availability ledger: the `available_car` table, the
    booking move that closes a car's open row and opens the next one, the
    release that deletes a closed row again, and the two read-side views.
    Each database session is one atomic step of a method. */
module Ledger {
  import opened Wrappers

  type CarId = string

  /** One row of `available_car`: the car stands at `officeId` and is free
      from `from` on; `to` is when that stops, or None for the car's open
      (current) row. */
  datatype Availability = Availability(id: nat, officeId: int, car: CarId, from: int, to: Option<int>)

  // ---------------------------------------------------------------------
  // Queries: the equality filters the handlers put on the table.

  datatype Filter =
    | OpenRowOf(car: CarId)                           // car_uuid = c AND available_to IS NULL
    | ClosedRowOf(car: CarId, office: int, to: int)   // available_to = t AND office_id = o AND car_uuid = c
    | RowsOf(car: CarId)                              // car_uuid = c
    | RowsInOffice(office: int, car: CarId)           // office_id = o AND car_uuid = c

  predicate Selects(f: Filter, a: Availability)
  {
    match f
    case OpenRowOf(c) => a.car == c && a.to == None
    case ClosedRowOf(c, o, t) => a.to == Some(t) && a.officeId == o && a.car == c
    case RowsOf(c) => a.car == c
    case RowsInOffice(o, c) => a.officeId == o && a.car == c
  }

  /** Positions of the rows a filter selects, in table order. */
  function Matching(rows: seq<Availability>, f: Filter): (r: seq<nat>)
    ensures forall k :: 0 <= k < |r| ==> r[k] < |rows| && Selects(f, rows[r[k]])
    ensures forall i :: 0 <= i < |rows| && Selects(f, rows[i]) ==> i in r
    ensures forall k, l :: 0 <= k < l < |r| ==> r[k] < r[l]
  {
    if rows == [] then []
    else
      var n := |rows| - 1;
      Matching(rows[..n], f) + (if Selects(f, rows[n]) then [n] else [])
  }

  /** The three outcomes of SQLAlchemy's `one_or_none()`: no row, one row, or
      the MultipleResultsFound exception. */
  datatype Lookup = Absent | Unique(index: nat) | Ambiguous

  function OneOrNone(rows: seq<Availability>, f: Filter): (r: Lookup)
    ensures r.Absent? <==> forall i :: 0 <= i < |rows| ==> !Selects(f, rows[i])
    ensures r.Unique? ==> r.index < |rows| && Selects(f, rows[r.index])
    ensures r.Unique? ==> forall i :: 0 <= i < |rows| && i != r.index ==> !Selects(f, rows[i])
    ensures r.Ambiguous? <==>
      exists i, j :: 0 <= i < j < |rows| && Selects(f, rows[i]) && Selects(f, rows[j])
  {
    var m := Matching(rows, f);
    if |m| == 0 then Absent
    else if |m| == 1 then Unique(m[0])
    else
      assert m[0] < m[1];
      Ambiguous
  }

  /** The rows a filter selects (the query's result list, before ordering). */
  function Select(rows: seq<Availability>, f: Filter): (r: seq<Availability>)
    ensures forall a :: multiset(r)[a] == if Selects(f, a) then multiset(rows)[a] else 0
  {
    if rows == [] then []
    else
      assert rows == [rows[0]] + rows[1..];
      (if Selects(f, rows[0]) then [rows[0]] else []) + Select(rows[1..], f)
  }

  // ---------------------------------------------------------------------
  // `ORDER BY available_from DESC`

  ghost predicate DescendingByFrom(s: seq<Availability>)
  {
    forall k, l :: 0 <= k < l < |s| ==> s[k].from >= s[l].from
  }

  function InsertByFrom(x: Availability, s: seq<Availability>): seq<Availability>
  {
    if s == [] then [x]
    else if x.from >= s[0].from then [x] + s
    else [s[0]] + InsertByFrom(x, s[1..])
  }

  /** Inserting into a descending list keeps it descending and adds exactly x. */
  lemma {:induction false} InsertByFromSpec(x: Availability, s: seq<Availability>)
    requires DescendingByFrom(s)
    ensures DescendingByFrom(InsertByFrom(x, s))
    ensures multiset(InsertByFrom(x, s)) == multiset(s) + multiset{x}
  {
    if s != [] && x.from < s[0].from {
      var tail := s[1..];
      assert s == [s[0]] + tail;
      assert DescendingByFrom(tail) by {
        forall k, l | 0 <= k < l < |tail| ensures tail[k].from >= tail[l].from {
          assert tail[k] == s[k + 1] && tail[l] == s[l + 1];
        }
      }
      InsertByFromSpec(x, tail);
      var t := InsertByFrom(x, tail);
      assert InsertByFrom(x, s) == [s[0]] + t;
      forall l | 0 <= l < |t|
        ensures t[l].from <= s[0].from
      {
        assert t[l] in multiset(t);
        if t[l] != x {
          assert t[l] in multiset(tail);
          assert t[l] in tail;
        }
      }
      assert multiset([s[0]] + t) == multiset{s[0]} + multiset(t);
    }
  }

  /** The rows in descending `from` order. The order of rows with equal
      `from` is left to the database; this model keeps table order, and
      under Consistent no two rows of one car share a `from`. */
  function SortByFromDesc(s: seq<Availability>): (r: seq<Availability>)
    ensures DescendingByFrom(r)
    ensures multiset(r) == multiset(s)
  {
    if s == [] then []
    else
      assert s == [s[0]] + s[1..];
      var t := SortByFromDesc(s[1..]);
      InsertByFromSpec(s[0], t);
      InsertByFrom(s[0], t)
  }

  /** Every row a filter selects appears in the ordered query result. */
  lemma SelectedRowIsListed(rows: seq<Availability>, f: Filter, i: nat)
    requires i < |rows| && Selects(f, rows[i])
    ensures rows[i] in SortByFromDesc(Select(rows, f))
  {
    assert multiset(rows)[rows[i]] > 0;
    assert multiset(Select(rows, f))[rows[i]] > 0;
    assert multiset(SortByFromDesc(Select(rows, f)))[rows[i]] > 0;
  }

  /** Every row of the ordered query result is a selected row of the table. */
  lemma ListedRowIsSelected(rows: seq<Availability>, f: Filter, a: Availability)
    requires a in SortByFromDesc(Select(rows, f))
    ensures Selects(f, a) && a in rows
  {
    assert multiset(SortByFromDesc(Select(rows, f)))[a] > 0;
    assert multiset(Select(rows, f))[a] > 0;
    assert multiset(rows)[a] > 0;
  }

  /** The ordered query result is empty exactly when no row is selected,
      and otherwise starts with a selected row of the greatest `from`. */
  lemma NewestFirst(rows: seq<Availability>, f: Filter)
    ensures var s := SortByFromDesc(Select(rows, f));
      && (s == [] <==> forall i :: 0 <= i < |rows| ==> !Selects(f, rows[i]))
      && (s != [] ==> Selects(f, s[0]) && s[0] in rows)
      && (forall i :: 0 <= i < |rows| && Selects(f, rows[i]) ==> rows[i].from <= s[0].from)
  {
    var s := SortByFromDesc(Select(rows, f));
    forall i | 0 <= i < |rows| && Selects(f, rows[i])
      ensures rows[i] in s
    {
      SelectedRowIsListed(rows, f, i);
    }
    if s != [] {
      ListedRowIsSelected(rows, f, s[0]);
    }
  }

  // ---------------------------------------------------------------------
  // The interval invariant.

  /** A closed row never ends before it starts. */
  ghost predicate WellFormed(a: Availability)
  {
    a.to.Some? ==> a.from <= a.to.value
  }

  /** Row a is closed and ends strictly before b starts. */
  ghost predicate Before(a: Availability, b: Availability)
  {
    a.to.Some? && a.to.value < b.from
  }

  /** Every car's rows form a chain of disjoint intervals, totally ordered
      by time, with no row ending before it starts. */
  ghost predicate Consistent(rows: seq<Availability>)
  {
    && (forall i :: 0 <= i < |rows| ==> WellFormed(rows[i]))
    && (forall i, j :: 0 <= i < |rows| && 0 <= j < |rows| && i != j && rows[i].car == rows[j].car ==>
          Before(rows[i], rows[j]) || Before(rows[j], rows[i]))
  }

  /** A consistent table has at most one open row per car, so the
      MultipleResultsFound path of the booking lookup is never taken. */
  lemma {:induction false} OpenRowIsUnique(rows: seq<Availability>, car: CarId)
    requires Consistent(rows)
    ensures OneOrNone(rows, OpenRowOf(car)) != Ambiguous
  {
    var f := OpenRowOf(car);
    forall i, j | 0 <= i < j < |rows| && Selects(f, rows[i])
      ensures !Selects(f, rows[j])
    {
      if rows[j].car == car {
        assert Before(rows[i], rows[j]) || Before(rows[j], rows[i]);
      }
    }
  }

  /** In a consistent table at most one row of a car ends at a given time
      at a given office, so the release lookup is never ambiguous. */
  lemma {:induction false} ClosedRowIsUnique(rows: seq<Availability>, car: CarId, office: int, t: int)
    requires Consistent(rows)
    ensures OneOrNone(rows, ClosedRowOf(car, office, t)) != Ambiguous
  {
    var f := ClosedRowOf(car, office, t);
    forall i, j | 0 <= i < j < |rows| && Selects(f, rows[i])
      ensures !Selects(f, rows[j])
    {
      if rows[j].car == car {
        assert WellFormed(rows[j]);
        assert Before(rows[i], rows[j]) || Before(rows[j], rows[i]);
      }
    }
  }

  /** In a consistent table a car's open row starts after every other row of
      that car: the newest row of the availability view is the current one. */
  lemma {:induction false} OpenRowIsLatest(rows: seq<Availability>, i: nat, j: nat)
    requires Consistent(rows)
    requires i < |rows| && j < |rows| && i != j
    requires rows[i].to == None && rows[j].car == rows[i].car
    ensures rows[j].to.Some? && rows[j].from <= rows[j].to.value < rows[i].from
  {
    assert WellFormed(rows[j]);
    assert Before(rows[i], rows[j]) || Before(rows[j], rows[i]);
  }

  /** So in a consistent table the newest row of a car, the one the car
      view reports as `last_available`, is its open row whenever it has one. */
  lemma {:induction false} NewestRowIsOpenRow(rows: seq<Availability>, i: nat)
    requires Consistent(rows)
    requires i < |rows| && rows[i].to == None
    ensures var s := SortByFromDesc(Select(rows, RowsOf(rows[i].car)));
      s != [] && s[0] == rows[i]
  {
    var car := rows[i].car;
    var s := SortByFromDesc(Select(rows, RowsOf(car)));
    NewestFirst(rows, RowsOf(car));
    assert Selects(RowsOf(car), rows[i]);
    forall j | 0 <= j < |rows| && j != i && rows[j].car == car
      ensures rows[j].from < rows[i].from
    {
      OpenRowIsLatest(rows, i, j);
    }
    var j :| 0 <= j < |rows| && rows[j] == s[0];
  }

  // ---------------------------------------------------------------------
  // The booking move (PUT /offices/cars/<car_uuid>).

  /** The JSON body fields of the request; None when a field is missing or
      does not convert to an integer. */
  datatype BookRequest = BookRequest(startTime: Option<int>, endTime: Option<int>, takenFrom: Option<int>, takenTo: Option<int>)
  {
    predicate Parsed()
    {
      startTime.Some? && endTime.Some? && takenFrom.Some? && takenTo.Some?
    }
  }

  datatype BookOutcome =
    | Booked                                          // 201
    | BookBadBody                                     // 400 "bad body"
    | CarUnavailable                                  // 404 "car is unavailable"
    | WrongOffice(availableFrom: int, officeId: int)  // 400, names the real office and start
    | BadWindow(availableFrom: int)                   // 400, names the real start
    | SeveralOpenRows                                 // 500, MultipleResultsFound

  function BookCode(o: BookOutcome): (code: int)
    ensures Ok(code) <==> o == Booked
  {
    match o
    case Booked => 201
    case BookBadBody => 400
    case CarUnavailable => 404
    case WrongOffice(_, _) => 400
    case BadWindow(_) => 400
    case SeveralOpenRows => 500
  }

  /** Which branch of the handler a request takes, given the table. */
  function BookDecision(rows: seq<Availability>, car: CarId, req: BookRequest): BookOutcome
  {
    if !req.Parsed() then BookBadBody
    else
      match OneOrNone(rows, OpenRowOf(car))
      case Absent => CarUnavailable
      case Ambiguous => SeveralOpenRows
      case Unique(i) =>
        var a := rows[i];
        if a.officeId != req.takenFrom.value then WrongOffice(a.from, a.officeId)
        else if req.startTime.value < a.from || req.endTime.value <= req.startTime.value then BadWindow(a.from)
        else Booked
  }

  /** The table after a booking closed row i at `start` and opened the car
      at `takenTo` from `end` under the fresh id `id`. */
  function Split(rows: seq<Availability>, i: nat, start: int, end: int, takenTo: int, id: nat): seq<Availability>
    requires i < |rows|
  {
    rows[i := rows[i].(to := Some(start))] + [Availability(id, takenTo, rows[i].car, end, None)]
  }

  /** Closing the open row at a start inside its interval and opening the
      next row after the end keeps the table consistent. */
  lemma {:induction false} SplitKeepsConsistent(rows: seq<Availability>, i: nat, start: int, end: int, takenTo: int, id: nat)
    requires Consistent(rows)
    requires i < |rows| && rows[i].to == None && rows[i].from <= start < end
    ensures Consistent(Split(rows, i, start, end, takenTo, id))
  {
    var r := Split(rows, i, start, end, takenTo, id);
    var n := |rows|;
    assert |r| == n + 1;
    forall p | 0 <= p < |r|
      ensures WellFormed(r[p])
    {
      if p < n && p != i { assert r[p] == rows[p]; assert WellFormed(rows[p]); }
    }
    forall p, q | 0 <= p < |r| && 0 <= q < |r| && p != q && r[p].car == r[q].car
      ensures Before(r[p], r[q]) || Before(r[q], r[p])
    {
      if p < n && q < n {
        assert Before(rows[p], rows[q]) || Before(rows[q], rows[p]);
        if p != i && q != i {
          assert r[p] == rows[p] && r[q] == rows[q];
        } else if p == i {
          assert !Before(rows[p], rows[q]);
        } else {
          assert !Before(rows[q], rows[p]);
        }
      } else if p == n {
        if q != i { OpenRowIsLatest(rows, i, q); assert r[q] == rows[q]; }
        assert Before(r[q], r[p]);
      } else {
        if p != i { OpenRowIsLatest(rows, i, p); assert r[p] == rows[p]; }
        assert Before(r[p], r[q]);
      }
    }
  }

  /** After a booking the car has exactly one open row again: the new one,
      at the destination office from the end of the booking; the row it
      closed ends at the booking's start, which precedes its end. This
      needs only what the handler checks: its open-row lookup found row i
      alone, and the window passed. */
  lemma {:induction false} SplitLeavesOneOpenRow(rows: seq<Availability>, i: nat, start: int, end: int, takenTo: int, id: nat)
    requires i < |rows| && OneOrNone(rows, OpenRowOf(rows[i].car)) == Unique(i)
    requires rows[i].from <= start < end
    ensures OneOrNone(Split(rows, i, start, end, takenTo, id), OpenRowOf(rows[i].car)) == Unique(|rows|)
    ensures var r := Split(rows, i, start, end, takenTo, id);
      r[|rows|] == Availability(id, takenTo, rows[i].car, end, None) &&
      r[i].from <= r[i].to.value == start < end
  {
    var r := Split(rows, i, start, end, takenTo, id);
    var car := rows[i].car;
    forall j | 0 <= j < |r| && j != |rows|
      ensures !Selects(OpenRowOf(car), r[j])
    {
      if j != i {
        assert r[j] == rows[j];
      }
    }
    assert Selects(OpenRowOf(car), r[|rows|]);
  }

  // ---------------------------------------------------------------------
  // The release (DELETE /offices/cars/<car_uuid>).

  datatype ReleaseOutcome =
    | Released                // 200
    | ReleaseBadBody          // 400 "bad body"
    | ReleaseNotFound         // 404 "not found"
    | SeveralClosedRows       // 500, MultipleResultsFound

  function ReleaseCode(o: ReleaseOutcome): (code: int)
    ensures Ok(code) <==> o == Released
  {
    match o
    case Released => 200
    case ReleaseBadBody => 400
    case ReleaseNotFound => 404
    case SeveralClosedRows => 500
  }

  function ReleaseDecision(rows: seq<Availability>, car: CarId, startTime: Option<int>, takenFrom: Option<int>): ReleaseOutcome
  {
    if startTime.None? || takenFrom.None? then ReleaseBadBody
    else
      match OneOrNone(rows, ClosedRowOf(car, takenFrom.value, startTime.value))
      case Absent => ReleaseNotFound
      case Ambiguous => SeveralClosedRows
      case Unique(_) => Released
  }

  function Remove(rows: seq<Availability>, i: nat): (r: seq<Availability>)
    requires i < |rows|
    ensures |r| == |rows| - 1
    ensures forall k :: 0 <= k < |r| ==> r[k] == if k < i then rows[k] else rows[k + 1]
  {
    rows[..i] + rows[i + 1..]
  }

  /** Deleting a row keeps the table consistent. */
  lemma {:induction false} RemoveKeepsConsistent(rows: seq<Availability>, i: nat)
    requires Consistent(rows) && i < |rows|
    ensures Consistent(Remove(rows, i))
  {
    var r := Remove(rows, i);
    forall p | 0 <= p < |r|
      ensures WellFormed(r[p])
    {
      var p' := if p < i then p else p + 1;
      assert r[p] == rows[p'];
    }
    forall p, q | 0 <= p < |r| && 0 <= q < |r| && p != q && r[p].car == r[q].car
      ensures Before(r[p], r[q]) || Before(r[q], r[p])
    {
      var p' := if p < i then p else p + 1;
      var q' := if q < i then q else q + 1;
      assert r[p] == rows[p'] && r[q] == rows[q'];
    }
  }

  /** The release issued for a booking finds exactly the row that booking
      closed, and deleting it leaves the table as if the car's former open
      row had never existed: the interval it covered is not reopened. */
  lemma {:induction false} ReleaseUndoesOnlyTheClose(rows: seq<Availability>, i: nat, start: int, end: int, takenTo: int, id: nat)
    requires Consistent(rows)
    requires i < |rows| && rows[i].to == None && rows[i].from <= start < end
    ensures var r := Split(rows, i, start, end, takenTo, id);
      OneOrNone(r, ClosedRowOf(rows[i].car, rows[i].officeId, start)) == Unique(i) &&
      Remove(r, i) == Remove(rows, i) + [Availability(id, takenTo, rows[i].car, end, None)]
  {
    var r := Split(rows, i, start, end, takenTo, id);
    var f := ClosedRowOf(rows[i].car, rows[i].officeId, start);
    forall j | 0 <= j < |r| && j != i
      ensures !Selects(f, r[j])
    {
      if j < |rows| && rows[j].car == rows[i].car {
        OpenRowIsLatest(rows, i, j);
        assert r[j] == rows[j];
      }
    }
    assert Selects(f, r[i]);
    assert Remove(r, i) == Remove(rows, i) + [r[|rows|]];
  }

  /** A later booking of any car in a consistent table leaves the release
      lookup of an earlier booking pointing at the same row: the row a
      booking closes never ends at an earlier booking's start at that
      office, and the row it opens is open. */
  lemma {:induction false} LaterBookingKeepsClosedRow(rows: seq<Availability>, k: nat, j: nat, start: int, end: int, takenTo: int, id: nat)
    requires Consistent(rows)
    requires k < |rows| && rows[k].to.Some?
    requires OneOrNone(rows, ClosedRowOf(rows[k].car, rows[k].officeId, rows[k].to.value)) == Unique(k)
    requires j < |rows| && rows[j].to == None && rows[j].from <= start < end
    ensures var f := ClosedRowOf(rows[k].car, rows[k].officeId, rows[k].to.value);
      OneOrNone(Split(rows, j, start, end, takenTo, id), f) == Unique(k)
  {
    var f := ClosedRowOf(rows[k].car, rows[k].officeId, rows[k].to.value);
    var r := Split(rows, j, start, end, takenTo, id);
    if rows[j].car == rows[k].car {
      OpenRowIsLatest(rows, j, k);
    }
    assert r[k] == rows[k];
    forall p | 0 <= p < |r| && p != k
      ensures !Selects(f, r[p])
    {
      if p < |rows| && p != j {
        assert r[p] == rows[p];
      }
    }
  }

  // ---------------------------------------------------------------------
  // Shapes of the read-side views.

  /** `last_available` of the car view. */
  datatype LastAvailable = LastAvailable(officeId: int, from: int)

  /** One entry of the car view's `offices` list. */
  datatype Slot = Slot(officeId: int, from: int, to: Option<int>)

  datatype CarView = CarNotAvailable | CarView(lastAvailable: LastAvailable, offices: seq<Slot>)

  function SlotOf(a: Availability): Slot
  {
    Slot(a.officeId, a.from, a.to)
  }

  /** The `offices` list of the car view: every row after the first, in
      order, as a slot. */
  method SlotsAfterFirst(s: seq<Availability>) returns (offices: seq<Slot>)
    requires |s| > 0
    ensures |offices| == |s| - 1
    ensures forall k :: 1 <= k < |s| ==> offices[k - 1] == SlotOf(s[k])
  {
    offices := [];
    var k := 1;
    while k < |s|
      invariant 1 <= k <= |s|
      invariant |offices| == k - 1
      invariant forall m :: 1 <= m < k ==> offices[m - 1] == SlotOf(s[m])
    {
      offices := offices + [SlotOf(s[k])];
      k := k + 1;
    }
  }

  lemma SlotsStayDescending(s: seq<Availability>, offices: seq<Slot>)
    requires DescendingByFrom(s) && |s| > 0 && |offices| == |s| - 1
    requires forall k :: 1 <= k < |s| ==> offices[k - 1] == SlotOf(s[k])
    ensures forall k, l :: 0 <= k < l < |offices| ==> offices[l].from <= offices[k].from <= s[0].from
  {
    forall k, l | 0 <= k < l < |offices|
      ensures offices[l].from <= offices[k].from <= s[0].from
    {
      assert offices[k] == SlotOf(s[k + 1]) && offices[l] == SlotOf(s[l + 1]);
    }
  }

  // ---------------------------------------------------------------------

  /** The `available_car` table and the office handlers that use it. */
  class Office {
    var rows: seq<Availability>
    /** The next autoincrement key. */
    var nextId: nat

    ghost predicate Valid()
      reads this
    {
      && (forall i :: 0 <= i < |rows| ==> rows[i].id < nextId)
      && (forall i, j :: 0 <= i < j < |rows| ==> rows[i].id != rows[j].id)
    }

    /** A ledger holding the rows cars were stocked with; stocking itself is
        not part of this model. */
    constructor (stocked: seq<Availability>, firstFreeId: nat)
      requires forall i :: 0 <= i < |stocked| ==> stocked[i].id < firstFreeId
      requires forall i, j :: 0 <= i < j < |stocked| ==> stocked[i].id != stocked[j].id
      ensures Valid()
      ensures rows == stocked && nextId == firstFreeId
    {
      rows := stocked;
      nextId := firstFreeId;
    }

    /** PUT /offices/cars/<car>: close the car's open row at the start of the
        booking and open a row at the destination office from its end. */
    method Book(car: CarId, req: BookRequest) returns (outcome: BookOutcome)
      requires Valid()
      modifies this
      ensures Valid()
      ensures outcome == BookDecision(old(rows), car, req)
      ensures outcome != Booked ==> unchanged(this)
      ensures outcome == Booked ==>
        var i := OneOrNone(old(rows), OpenRowOf(car)).index;
        && nextId == old(nextId) + 1
        && rows == Split(old(rows), i, req.startTime.value, req.endTime.value, req.takenTo.value, old(nextId))
      ensures old(Consistent(rows)) ==> Consistent(rows)
    {
      if !req.Parsed() {
        return BookBadBody;
      }
      var startTime, endTime, takenFrom, takenTo := req.startTime.value, req.endTime.value, req.takenFrom.value, req.takenTo.value;
      var found := OneOrNone(rows, OpenRowOf(car));
      if found == Ambiguous {
        return SeveralOpenRows;
      }
      if found == Absent {
        return CarUnavailable;
      }
      var i := found.index;
      var last := rows[i];
      if last.officeId != takenFrom {
        return WrongOffice(last.from, last.officeId);
      }
      if startTime < last.from || endTime <= startTime {
        return BadWindow(last.from);
      }
      ghost var before := rows;
      rows := rows[i := last.(to := Some(startTime))];
      rows := rows + [Availability(nextId, takenTo, last.car, endTime, None)];
      nextId := nextId + 1;
      outcome := Booked;
      if Consistent(before) {
        SplitKeepsConsistent(before, i, startTime, endTime, takenTo, old(nextId));
      }
    }

    /** DELETE /offices/cars/<car>: delete the row that a booking starting at
        `startTime` at office `takenFrom` closed. */
    method DeleteCarAvailability(car: CarId, startTime: Option<int>, takenFrom: Option<int>) returns (outcome: ReleaseOutcome)
      requires Valid()
      modifies this
      ensures Valid() && nextId == old(nextId)
      ensures outcome == ReleaseDecision(old(rows), car, startTime, takenFrom)
      ensures outcome != Released ==> unchanged(this)
      ensures outcome == Released ==>
        rows == Remove(old(rows), OneOrNone(old(rows), ClosedRowOf(car, takenFrom.value, startTime.value)).index)
      ensures forall a :: a in rows ==> a in old(rows)
      ensures old(Consistent(rows)) ==> Consistent(rows)
    {
      if startTime.None? || takenFrom.None? {
        return ReleaseBadBody;
      }
      var found := OneOrNone(rows, ClosedRowOf(car, takenFrom.value, startTime.value));
      match found
      case Absent => outcome := ReleaseNotFound;
      case Ambiguous => outcome := SeveralClosedRows;
      case Unique(i) =>
        ghost var before := rows;
        rows := rows[..i] + rows[i + 1..];
        outcome := Released;
        assert rows == Remove(before, i);
        if Consistent(before) {
          RemoveKeepsConsistent(before, i);
        }
    }

    /** GET /offices/<office>/cars/<car>: the car's rows at that office,
        newest first, or None (404) when there are none. */
    function GetCarAvailabilityInOffice(office: int, car: CarId): (r: Option<seq<Availability>>)
      reads this
      ensures r.None? <==> forall i :: 0 <= i < |rows| ==> !(rows[i].officeId == office && rows[i].car == car)
      ensures r.Some? ==> DescendingByFrom(r.value)
      ensures r.Some? ==>
        (forall a :: multiset(r.value)[a] == if a.officeId == office && a.car == car then multiset(rows)[a] else 0)
    {
      var found := SortByFromDesc(Select(rows, RowsInOffice(office, car)));
      if found == [] then
        assert forall i :: 0 <= i < |rows| ==> multiset(rows)[rows[i]] > 0;
        None
      else
        Some(found)
    }

    /** GET /offices/cars/<car>: the newest row of the car as
        `last_available` and the remaining rows, newest first, as `offices`;
        CarNotAvailable (404) when the car has no row at all. */
    method GetCarAvailability(car: CarId) returns (r: CarView)
      ensures r.CarNotAvailable? <==> forall i :: 0 <= i < |rows| ==> rows[i].car != car
      ensures r.CarView? ==>
        var s := SortByFromDesc(Select(rows, RowsOf(car)));
        && |s| > 0
        && r.lastAvailable == LastAvailable(s[0].officeId, s[0].from)
        && |r.offices| == |s| - 1
        && forall k :: 1 <= k < |s| ==> r.offices[k - 1] == SlotOf(s[k])
      ensures r.CarView? ==>
        forall i :: 0 <= i < |rows| && rows[i].car == car ==> rows[i].from <= r.lastAvailable.from
      ensures r.CarView? ==>
        forall k, l :: 0 <= k < l < |r.offices| ==> r.offices[l].from <= r.offices[k].from <= r.lastAvailable.from
    {
      var s := SortByFromDesc(Select(rows, RowsOf(car)));
      NewestFirst(rows, RowsOf(car));
      if s == [] {
        return CarNotAvailable;
      }
      var offices := SlotsAfterFirst(s);
      r := CarView(LastAvailable(s[0].officeId, s[0].from), offices);
      SlotsStayDescending(s, offices);
    }
  }
}
