/** The statistics service: the `stat_record` table, the handler that
    appends to it and the two reports that count its records by one field.
    The report served as "booking by models" counts by office and the one
    served as "booking by offices" counts by car model, as the handlers do. */
module Statistics {
  import opened Wrappers

  datatype Record = Record(id: nat, carModel: string, office: string)

  /** Number of occurrences of k in keys. */
  function Count(keys: seq<string>, k: string): nat
  {
    if keys == [] then 0
    else Count(keys[..|keys| - 1], k) + (if keys[|keys| - 1] == k then 1 else 0)
  }

  function Offices(records: seq<Record>): (r: seq<string>)
    ensures |r| == |records| && forall i :: 0 <= i < |records| ==> r[i] == records[i].office
  {
    seq(|records|, i requires 0 <= i < |records| => records[i].office)
  }

  function CarModels(records: seq<Record>): (r: seq<string>)
    ensures |r| == |records| && forall i :: 0 <= i < |records| ==> r[i] == records[i].carModel
  {
    seq(|records|, i requires 0 <= i < |records| => records[i].carModel)
  }

  /** Sum of the counts in a report. */
  ghost function Total(m: map<string, nat>): nat
    decreases |m|
  {
    if m == map[] then 0
    else
      var k :| k in m;
      assert |m - {k}| < |m| by { assert (m - {k}).Keys == m.Keys - {k}; }
      m[k] + Total(m - {k})
  }

  /** Total does not depend on which key it takes first. */
  lemma {:induction false} TotalWithout(m: map<string, nat>, k: string)
    requires k in m
    ensures Total(m) == m[k] + Total(m - {k})
    decreases |m|
  {
    var j :| j in m && Total(m) == m[j] + Total(m - {j});
    if j != k {
      assert (m - {j}).Keys == m.Keys - {j};
      assert (m - {k}).Keys == m.Keys - {k};
      TotalWithout(m - {j}, k);
      TotalWithout(m - {k}, j);
      assert m - {j} - {k} == m - {k} - {j};
    }
  }

  /** One `result[key] += 1` on a default-zero dictionary adds one to the total. */
  lemma {:induction false} TotalIncrement(m: map<string, nat>, key: string)
    ensures Total(m[key := (if key in m then m[key] else 0) + 1]) == Total(m) + 1
  {
    var m' := m[key := (if key in m then m[key] else 0) + 1];
    TotalWithout(m', key);
    assert m' - {key} == m - {key};
    if key in m {
      TotalWithout(m, key);
    } else {
      assert m - {key} == m;
    }
  }

  /** One step of the counting loop: the counts of `prefix` become the
      counts of `prefix + [key]`. */
  lemma TallyStep(prefix: seq<string>, key: string, r: map<string, nat>)
    requires forall k :: k in r <==> k in prefix
    requires forall k :: k in r ==> r[k] == Count(prefix, k) && r[k] >= 1
    ensures var r' := r[key := (if key in r then r[key] else 0) + 1];
      && (forall k :: k in r' <==> k in prefix + [key])
      && (forall k :: k in r' ==> r'[k] == Count(prefix + [key], k) && r'[k] >= 1)
  {
    assert (prefix + [key])[..|prefix|] == prefix;
    assert forall k :: !(k in prefix) ==> Count(prefix, k) == 0 by {
      forall k | !(k in prefix) ensures Count(prefix, k) == 0 {
        CountAbsent(prefix, k);
      }
    }
  }

  lemma {:induction false} CountAbsent(keys: seq<string>, k: string)
    requires !(k in keys)
    ensures Count(keys, k) == 0
  {
    if keys != [] {
      assert keys == keys[..|keys| - 1] + [keys[|keys| - 1]];
      CountAbsent(keys[..|keys| - 1], k);
    }
  }

  /** The counting loop of both reports: how often each key occurs. */
  method Tally(keys: seq<string>) returns (r: map<string, nat>)
    ensures forall k :: k in r <==> k in keys
    ensures forall k :: k in r ==> r[k] == Count(keys, k) && r[k] >= 1
    ensures Total(r) == |keys|
  {
    r := map[];
    var i := 0;
    while i < |keys|
      invariant 0 <= i <= |keys|
      invariant forall k :: k in r <==> k in keys[..i]
      invariant forall k :: k in r ==> r[k] == Count(keys[..i], k) && r[k] >= 1
      invariant Total(r) == i
    {
      var key := keys[i];
      TotalIncrement(r, key);
      TallyStep(keys[..i], key, r);
      assert keys[..i + 1] == keys[..i] + [key];
      r := r[key := (if key in r then r[key] else 0) + 1];
      i := i + 1;
    }
    assert keys[..i] == keys;
  }

  /** A new record adds one to the count of its office and of its car model
      and leaves every other count as it was. */
  lemma RecordCountsOnce(records: seq<Record>, rec: Record, k: string)
    ensures Count(Offices(records + [rec]), k) == Count(Offices(records), k) + (if rec.office == k then 1 else 0)
    ensures Count(CarModels(records + [rec]), k) == Count(CarModels(records), k) + (if rec.carModel == k then 1 else 0)
  {
    assert Offices(records + [rec])[..|records|] == Offices(records);
    assert CarModels(records + [rec])[..|records|] == CarModels(records);
  }

  datatype CreateRecordResponse =
    | RecordBadBody  // 400 "bad body"
    | RecordCreated  // 201

  function RecordCode(r: CreateRecordResponse): (code: int)
    ensures Ok(code) <==> r == RecordCreated
  {
    match r
    case RecordBadBody => 400
    case RecordCreated => 201
  }

  class StatTable {
    var records: seq<Record>
    /** The next autoincrement key. */
    var nextId: nat

    ghost predicate Valid()
      reads this
    {
      forall i :: 0 <= i < |records| ==> records[i].id < nextId
    }

    constructor ()
      ensures Valid() && records == [] && nextId == 1
    {
      records := [];
      nextId := 1;
    }

    /** POST /reports/create_record with the body fields `car_model` and
        `office`. */
    method CreateRecord(carModel: Option<string>, office: Option<string>) returns (r: CreateRecordResponse)
      requires Valid()
      modifies this
      ensures Valid()
      ensures carModel.None? || office.None? ==> r == RecordBadBody && unchanged(this)
      ensures carModel.Some? && office.Some? ==>
        && r == RecordCreated
        && records == old(records) + [Record(old(nextId), carModel.value, office.value)]
        && nextId == old(nextId) + 1
    {
      if carModel.None? || office.None? {
        return RecordBadBody;
      }
      records := records + [Record(nextId, carModel.value, office.value)];
      nextId := nextId + 1;
      r := RecordCreated;
    }

    /** GET /reports/booking-by-models: the number of records per office. */
    method BookingByModels() returns (r: map<string, nat>)
      ensures forall k :: k in r <==> exists i :: 0 <= i < |records| && records[i].office == k
      ensures forall k :: k in r ==> r[k] == Count(Offices(records), k) && r[k] >= 1
      ensures Total(r) == |records|
    {
      r := Tally(Offices(records));
      assert forall i :: 0 <= i < |records| ==> Offices(records)[i] == records[i].office;
    }

    /** GET /reports/booking-by-offices: the number of records per car model. */
    method BookingByOffices() returns (r: map<string, nat>)
      ensures forall k :: k in r <==> exists i :: 0 <= i < |records| && records[i].carModel == k
      ensures forall k :: k in r ==> r[k] == Count(CarModels(records), k) && r[k] >= 1
      ensures Total(r) == |records|
    {
      r := Tally(CarModels(records));
      assert forall i :: 0 <= i < |records| ==> CarModels(records)[i] == records[i].carModel;
    }
  }
}
