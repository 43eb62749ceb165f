/** Fill-up records of the camping-car log and the two operations on the record
    list that do not depend on ordering: appending a new entry and selecting the
    entries of one fuel type. */
module Records {

  /** The two kinds of fill-up the form offers. */
  datatype FuelType = Diesel | AdBlue

  /** One logged fill-up. `date` is an abstract, totally ordered timestamp (the
      ISO date-time of the entry); `kilometrage` is the odometer reading and
      `litres` the volume added. */
  datatype Record = Record(date: int, kilometrage: int, fuel: FuelType, litres: real)

  /** A point of a time-series chart: a date and the value plotted for it. */
  datatype Sample = Sample(date: int, value: real)

  /** The bounds the entry form puts on a new record: a non-negative odometer
      reading and a non-negative volume. */
  predicate Valid(r: Record) {
    r.kilometrage >= 0 && r.litres >= 0.0
  }

  predicate AllValid(data: seq<Record>) {
    forall i :: 0 <= i < |data| ==> Valid(data[i])
  }

  function DateOf(r: Record): int { r.date }

  function KilometrageOf(r: Record): int { r.kilometrage }

  /** Adds a new fill-up at the end of the log. */
  function Append(data: seq<Record>, r: Record): (d: seq<Record>)
    ensures |d| == |data| + 1
    ensures d[..|data|] == data
    ensures d[|data|] == r
  {
    data + [r]
  }

  /** Appending a valid record to a valid log keeps the log valid. */
  lemma AppendKeepsValid(data: seq<Record>, r: Record)
    requires AllValid(data) && Valid(r)
    ensures AllValid(Append(data, r))
  {
    var d := Append(data, r);
    forall i | 0 <= i < |d|
      ensures Valid(d[i])
    {
      if i < |data| {
        assert d[i] == d[..|data|][i];
      }
    }
  }

  /** The records of fuel type `t`, in their order in `data`. */
  function OfType(data: seq<Record>, t: FuelType): (r: seq<Record>)
    ensures |r| <= |data|
    ensures forall x :: x in r <==> x in data && x.fuel == t
  {
    if data == [] then []
    else
      var last := data[|data| - 1];
      OfType(data[..|data| - 1], t) + (if last.fuel == t then [last] else [])
  }

  /** The positions in `data` of the records of fuel type `t`, ascending. */
  function TypePositions(data: seq<Record>, t: FuelType): (p: seq<nat>)
    ensures forall j :: 0 <= j < |p| ==> p[j] < |data| && data[p[j]].fuel == t
    ensures forall j, k :: 0 <= j < k < |p| ==> p[j] < p[k]
  {
    if data == [] then []
    else
      var n := |data| - 1;
      TypePositions(data[..n], t) + (if data[n].fuel == t then [n] else [])
  }

  /** A position is selected exactly when its record has the requested type. */
  lemma {:induction false} TypePositionsExact(data: seq<Record>, t: FuelType)
    ensures forall i :: 0 <= i < |data| ==> (i in TypePositions(data, t) <==> data[i].fuel == t)
  {
    if data != [] {
      var n := |data| - 1;
      TypePositionsExact(data[..n], t);
      var p := TypePositions(data[..n], t);
      forall i | 0 <= i < |data|
        ensures i in TypePositions(data, t) <==> data[i].fuel == t
      {
        if i < n {
          assert data[..n][i] == data[i];
        } else {
          assert i !in p;
        }
      }
    }
  }

  /** The filter keeps exactly the records of the requested type, in their
      original relative order: its j-th entry is the record at the j-th
      selected position. */
  lemma {:induction false} OfTypeIsOrderedSelection(data: seq<Record>, t: FuelType)
    ensures |OfType(data, t)| == |TypePositions(data, t)|
    ensures forall j :: 0 <= j < |OfType(data, t)| ==>
      OfType(data, t)[j] == data[TypePositions(data, t)[j]]
  {
    if data != [] {
      var n := |data| - 1;
      OfTypeIsOrderedSelection(data[..n], t);
      var r := OfType(data[..n], t);
      var p := TypePositions(data[..n], t);
      forall j | 0 <= j < |r|
        ensures OfType(data, t)[j] == data[TypePositions(data, t)[j]]
      {
        assert OfType(data, t)[j] == r[j];
        assert TypePositions(data, t)[j] == p[j];
        assert data[..n][p[j]] == data[p[j]];
      }
    }
  }

  /** The filter keeps every record of the requested type as many times as it
      occurs in the log, and no record of the other type. */
  lemma {:induction false} OfTypeCounts(data: seq<Record>, t: FuelType)
    ensures forall x :: multiset(OfType(data, t))[x] == if x.fuel == t then multiset(data)[x] else 0
  {
    if data != [] {
      var n := |data| - 1;
      OfTypeCounts(data[..n], t);
      assert data == data[..n] + [data[n]];
    }
  }

  /** Two logs holding the same records give filters holding the same
      records. */
  lemma OfTypeRespectsPermutation(data: seq<Record>, other: seq<Record>, t: FuelType)
    requires multiset(data) == multiset(other)
    ensures multiset(OfType(data, t)) == multiset(OfType(other, t))
  {
    OfTypeCounts(data, t);
    OfTypeCounts(other, t);
  }

  /** Appending a record extends the filter for its own type and leaves the
      filter for the other type unchanged. */
  lemma AppendThenFilter(data: seq<Record>, r: Record, t: FuelType)
    ensures OfType(Append(data, r), t) ==
      OfType(data, t) + (if r.fuel == t then [r] else [])
  {
    assert Append(data, r)[..|data|] == data;
  }
}
