/** What the display part of a pass decides to show for the log and the fuel
    type picked for the charts: the history is sorted by date, the records of
    the picked type drive a volume chart, and for diesel the consumption
    chart or an "insufficient data" notice. */
module Display {
  import opened Records
  import opened Sorting
  import opened Consumption

  /** The consumption part of the charts. */
  datatype ConsumptionView =
    | NotShown                     // not diesel, or fewer than two diesel records
    | Insufficient                 // every consecutive pair was skipped
    | Chart(points: seq<Sample>)

  /** The outcome of the display part of a pass. */
  datatype View =
    | NoHistory                    // the log is empty: nothing below the title
    | NoDataForType                // no record of the picked type
    | Charts(volume: seq<Sample>, consumption: ConsumptionView)

  /** The volume chart: each filtered record's litres at its date. It has one
      sample per record, and a sample is plotted exactly when some filtered
      record has its date and volume. */
  function VolumeSeries(filtre: seq<Record>): (v: seq<Sample>)
    ensures |v| == |filtre|
    ensures forall x :: x in filtre ==> Sample(x.date, x.litres) in v
    ensures forall p :: p in v ==> exists x :: x in filtre && p == Sample(x.date, x.litres)
  {
    var v := seq(|filtre|, j requires 0 <= j < |filtre| => Sample(filtre[j].date, filtre[j].litres));
    assert forall j :: 0 <= j < |filtre| ==> v[j] == Sample(filtre[j].date, filtre[j].litres);
    v
  }

  /** The consumption chart decision for the filtered records: considered
      only for diesel with at least two records, and a chart then has between
      one and one-less-than-the-records points. */
  function ConsumptionFor(filtre: seq<Record>, selected: FuelType): (c: ConsumptionView)
    ensures c.NotShown? <==> !(selected == Diesel && |filtre| >= 2)
    ensures c.Chart? ==> 1 <= |c.points| <= |filtre| - 1
  {
    if selected == Diesel && |filtre| >= 2 then
      var conso := Points(SortBy(filtre, KilometrageOf));
      if conso == [] then Insufficient else Chart(conso)
    else NotShown
  }

  /** One display pass over the log `data` with `selected` picked for the
      charts. Nothing is shown exactly when the log is empty; a volume chart
      never has more points than the log has records; AdBlue never gets a
      consumption part, and diesel gets one whenever its volume chart has two
      points or more. */
  function Render(data: seq<Record>, selected: FuelType): (v: View)
    ensures v.NoHistory? <==> data == []
    ensures v.Charts? ==> 1 <= |v.volume| <= |data|
    ensures v.Charts? && selected == AdBlue ==> v.consumption.NotShown?
    ensures v.Charts? && selected == Diesel && |v.volume| >= 2 ==> !v.consumption.NotShown?
  {
    if data == [] then NoHistory
    else
      var filtre := OfType(SortBy(data, DateOf), selected);
      if filtre == [] then NoDataForType
      else Charts(VolumeSeries(filtre), ConsumptionFor(filtre, selected))
  }

  /** The records of the picked type, once the log is sorted by date, are
      those of the log itself, with the same multiplicities. */
  lemma FilteredHistoryHoldsLogRecords(data: seq<Record>, t: FuelType)
    ensures multiset(OfType(SortBy(data, DateOf), t)) == multiset(OfType(data, t))
    ensures |OfType(SortBy(data, DateOf), t)| == |OfType(data, t)|
  {
    OfTypeRespectsPermutation(SortBy(data, DateOf), data, t);
    assert |multiset(OfType(SortBy(data, DateOf), t))| == |multiset(OfType(data, t))|;
  }

  /** `v` has one point per record of type `t` in `data`, in date order,
      each the date and volume of such a record. */
  predicate VolumeChartOf(v: seq<Sample>, data: seq<Record>, t: FuelType) {
    && |v| == |OfType(data, t)|
    && (forall j, k :: 0 <= j < k < |v| ==> v[j].date <= v[k].date)
    && (forall j :: 0 <= j < |v| ==>
          exists x :: x in data && x.fuel == t && v[j] == Sample(x.date, x.litres))
  }

  /** When the log holds a record of the picked type, the volume chart shows
      the records of that type, in date order. */
  lemma VolumeChartContents(data: seq<Record>, t: FuelType)
    requires exists x :: x in data && x.fuel == t
    ensures Render(data, t).Charts?
    ensures VolumeChartOf(Render(data, t).volume, data, t)
  {
    ChartsIffTypePresent(data, t);
    var history := SortBy(data, DateOf);
    var filtre := OfType(history, t);
    assert Render(data, t).volume == VolumeSeries(filtre);
    FilteredHistoryHoldsLogRecords(data, t);
    FilterKeepsDateOrder(history, t);
    VolumeSeriesOfSelection(filtre, data, t);
  }

  lemma VolumeSeriesOfSelection(filtre: seq<Record>, data: seq<Record>, t: FuelType)
    requires multiset(filtre) == multiset(OfType(data, t))
    requires SortedBy(filtre, DateOf)
    ensures VolumeChartOf(VolumeSeries(filtre), data, t)
  {
    var v := VolumeSeries(filtre);
    assert |filtre| == |multiset(filtre)| == |OfType(data, t)|;
    forall j, k | 0 <= j < k < |v|
      ensures v[j].date <= v[k].date
    {
      assert DateOf(filtre[j]) <= DateOf(filtre[k]);
    }
    forall j | 0 <= j < |v|
      ensures exists x :: x in data && x.fuel == t && v[j] == Sample(x.date, x.litres)
    {
      assert filtre[j] in multiset(OfType(data, t));
      assert filtre[j] in OfType(data, t);
    }
  }

  /** Filtering a date-sorted history keeps it sorted by date. */
  lemma FilterKeepsDateOrder(history: seq<Record>, t: FuelType)
    requires SortedBy(history, DateOf)
    ensures SortedBy(OfType(history, t), DateOf)
  {
    var filtre := OfType(history, t);
    OfTypeIsOrderedSelection(history, t);
    var p := TypePositions(history, t);
    forall j, k | 0 <= j < k < |filtre|
      ensures DateOf(filtre[j]) <= DateOf(filtre[k])
    {
      assert filtre[j] == history[p[j]] && filtre[k] == history[p[k]];
    }
  }

  /** Charts are shown exactly when the log holds a record of the picked
      type. */
  lemma ChartsIffTypePresent(data: seq<Record>, t: FuelType)
    ensures Render(data, t).Charts? <==> exists x :: x in data && x.fuel == t
  {
    FilteredHistoryHoldsLogRecords(data, t);
    if OfType(data, t) != [] {
      var y := OfType(data, t)[0];
      assert y in OfType(data, t);
    } else {
      assert forall x :: x in data && x.fuel == t ==> x in OfType(data, t);
    }
  }

  /** Consumption is considered only for diesel with at least two diesel
      records in the log. */
  lemma ConsumptionConsideredIff(data: seq<Record>, t: FuelType)
    ensures (Render(data, t).Charts? && !Render(data, t).consumption.NotShown?)
      <==> t == Diesel && |OfType(data, Diesel)| >= 2
  {
    var filtre := OfType(SortBy(data, DateOf), t);
    FilteredHistoryHoldsLogRecords(data, t);
    if data == [] {
      assert Render(data, t) == NoHistory;
    } else if filtre == [] {
      assert Render(data, t) == NoDataForType;
    } else {
      assert Render(data, t).consumption == ConsumptionFor(filtre, t);
    }
  }

  /** When consumption is considered, the notice replaces the chart exactly
      when all diesel records share one odometer reading; otherwise the chart
      has one point per distinct reading after the first, whichever order the
      sort gives records with equal readings. */
  lemma ConsumptionPointCount(data: seq<Record>)
    requires |OfType(data, Diesel)| >= 2
    ensures Render(data, Diesel).Charts?
    ensures Render(data, Diesel).consumption.Insufficient?
      <==> |Odometers(OfType(data, Diesel))| == 1
    ensures Render(data, Diesel).consumption.Chart? ==>
      |Render(data, Diesel).consumption.points| == |Odometers(OfType(data, Diesel))| - 1
  {
    var filtre := OfType(SortBy(data, DateOf), Diesel);
    FilteredHistoryHoldsLogRecords(data, Diesel);
    assert Render(data, Diesel) == Charts(VolumeSeries(filtre), ConsumptionFor(filtre, Diesel));
    ConsumptionForCount(filtre, OfType(data, Diesel));
  }

  lemma ConsumptionForCount(filtre: seq<Record>, diesel: seq<Record>)
    requires multiset(filtre) == multiset(diesel)
    requires |filtre| >= 2
    ensures ConsumptionFor(filtre, Diesel).Insufficient? <==> |Odometers(diesel)| == 1
    ensures ConsumptionFor(filtre, Diesel).Chart? ==>
      |ConsumptionFor(filtre, Diesel).points| == |Odometers(diesel)| - 1
  {
    var sorted := SortBy(filtre, KilometrageOf);
    PointCountIsDistinctReadings(sorted);
    SameRecordsSameOdometers(sorted, diesel);
  }

  /** Adding a record of one type never changes what is shown for the other
      type, once the log is non-empty. */
  lemma FilterIsolation(data: seq<Record>, r: Record, t: FuelType)
    requires data != []
    requires r.fuel != t
    ensures Render(Append(data, r), t) == Render(data, t)
  {
    var d := Append(data, r);
    assert d[..|d| - 1] == data;
    assert SortBy(d, DateOf) == InsertBy(r, SortBy(data, DateOf), DateOf);
    InsertOtherTypeKeepsFilter(r, SortBy(data, DateOf), t);
  }

  lemma {:induction false} InsertOtherTypeKeepsFilter(x: Record, s: seq<Record>, t: FuelType)
    requires SortedBy(s, DateOf)
    requires x.fuel != t
    ensures OfType(InsertBy(x, s, DateOf), t) == OfType(s, t)
    decreases |s|
  {
    if s != [] && DateOf(s[|s| - 1]) > DateOf(x) {
      PrefixSorted(s, DateOf, |s| - 1);
      InsertOtherTypeKeepsFilter(x, s[..|s| - 1], t);
      InsertBeforeLastKeepsFilter(x, s, t);
    } else {
      assert InsertBy(x, s, DateOf) == s + [x];
      AppendThenFilter(s, x, t);
    }
  }

  /** The step of the induction above: inserting before the last record. */
  lemma InsertBeforeLastKeepsFilter(x: Record, s: seq<Record>, t: FuelType)
    requires SortedBy(s, DateOf)
    requires x.fuel != t
    requires s != [] && DateOf(s[|s| - 1]) > DateOf(x)
    requires SortedBy(s[..|s| - 1], DateOf)
    requires OfType(InsertBy(x, s[..|s| - 1], DateOf), t) == OfType(s[..|s| - 1], t)
    ensures OfType(InsertBy(x, s, DateOf), t) == OfType(s, t)
  {
    var n := |s| - 1;
    var init := s[..n];
    var front := InsertBy(x, init, DateOf);
    assert InsertBy(x, s, DateOf) == front + [s[n]];
    AppendThenFilter(front, s[n], t);
    assert s == init + [s[n]];
    AppendThenFilter(init, s[n], t);
  }

  /** Two diesel fill-ups logged with decreasing odometer readings still give
      one consumption point, because the records are sorted by reading before
      the pairs are walked; the point is dated by the fill-up with the higher
      reading. */
  lemma DecreasingReadingsStillGivePoint(a: Record, b: Record)
    requires a.fuel == Diesel && b.fuel == Diesel
    requires a.date < b.date && b.kilometrage < a.kilometrage
    ensures Render([a, b], Diesel)
      == Charts([Sample(a.date, a.litres), Sample(b.date, b.litres)], Chart([PointOf(b, a)]))
  {
    RenderOfDieselPair(a, b);
    ConsumptionOfFallingPair(a, b);
    VolumeOfPair(a, b);
  }

  lemma VolumeOfPair(a: Record, b: Record)
    ensures VolumeSeries([a, b]) == [Sample(a.date, a.litres), Sample(b.date, b.litres)]
  {
  }

  lemma RenderOfDieselPair(a: Record, b: Record)
    requires a.fuel == Diesel && b.fuel == Diesel && a.date < b.date
    ensures Render([a, b], Diesel) == Charts(VolumeSeries([a, b]), ConsumptionFor([a, b], Diesel))
  {
    SortPair(a, b, DateOf);
    OfTypePair(a, b, Diesel);
  }

  lemma ConsumptionOfFallingPair(a: Record, b: Record)
    requires b.kilometrage < a.kilometrage
    ensures ConsumptionFor([a, b], Diesel) == Chart([PointOf(b, a)])
  {
    SortPair(a, b, KilometrageOf);
    PointsPair(b, a);
  }

  lemma OfTypePair(a: Record, b: Record, t: FuelType)
    requires a.fuel == t && b.fuel == t
    ensures OfType([a, b], t) == [a, b]
  {
    assert [a, b][..1] == [a];
  }

  lemma PointsPair(a: Record, b: Record)
    ensures Points([a, b]) == if Gap(a, b) > 0 then [PointOf(a, b)] else []
  {
    assert [a, b][..1] == [a];
  }

  /** Sorting two records puts them in key order, keeping logged order on a
      tie. */
  lemma SortPair(a: Record, b: Record, key: Record -> int)
    requires key(a) != key(b)
    ensures SortBy([a, b], key) == if key(b) < key(a) then [b, a] else [a, b]
  {
    SortedPairOfDistinctKeys(SortBy([a, b], key), a, b, key);
  }

  /** A sorted arrangement of two records with distinct keys is determined by
      the keys. */
  lemma SortedPairOfDistinctKeys(r: seq<Record>, a: Record, b: Record, key: Record -> int)
    requires key(a) != key(b)
    requires multiset(r) == multiset([a, b])
    requires SortedBy(r, key)
    ensures r == if key(b) < key(a) then [b, a] else [a, b]
  {
    assert |r| == |multiset(r)| == 2;
    assert r == [r[0], r[1]];
    assert r[0] in multiset(r) && r[1] in multiset(r);
    assert key(r[0]) <= key(r[1]);
  }
}
