/** Fuel consumption in litres per 100 km, derived from consecutive diesel
    fill-ups once they are ordered by odometer reading. */
module Consumption {
  import opened Records
  import opened Sorting

  /** Distance driven between two fill-ups. */
  function Gap(prev: Record, cur: Record): int {
    cur.kilometrage - prev.kilometrage
  }

  /** The consumption point of a pair with positive distance: dated by the
      later fill-up, whose volume is spread over the distance since the
      earlier one. */
  function PointOf(prev: Record, cur: Record): (p: Sample)
    requires Gap(prev, cur) > 0
    ensures p.date == cur.date
    ensures p.value * (Gap(prev, cur) as real) == cur.litres * 100.0
    ensures cur.litres >= 0.0 ==> p.value >= 0.0
  {
    Sample(cur.date, cur.litres / (Gap(prev, cur) as real) * 100.0)
  }

  /** The points the loop emits over `s`, walking its consecutive pairs. */
  function Points(s: seq<Record>): (r: seq<Sample>)
    ensures |s| <= 1 ==> |r| == 0
    ensures |s| >= 1 ==> |r| <= |s| - 1
    decreases |s|
  {
    if |s| < 2 then []
    else
      var n := |s| - 1;
      Points(s[..n]) + (if Gap(s[n - 1], s[n]) > 0 then [PointOf(s[n - 1], s[n])] else [])
  }

  /** For each emitted point, the position in `s` of the later record of the
      pair it comes from. */
  function Origins(s: seq<Record>): (o: seq<nat>)
    ensures forall j :: 0 <= j < |o| ==> 1 <= o[j] < |s| && Gap(s[o[j] - 1], s[o[j]]) > 0
    ensures forall j, k :: 0 <= j < k < |o| ==> o[j] < o[k]
    decreases |s|
  {
    if |s| < 2 then []
    else
      var n := |s| - 1;
      var front := Origins(s[..n]);
      assert forall j :: 0 <= j < |front| ==> s[..n][front[j] - 1] == s[front[j] - 1] && s[..n][front[j]] == s[front[j]];
      front + (if Gap(s[n - 1], s[n]) > 0 then [n] else [])
  }

  /** The skip rule, both ways: a pair yields a point exactly when its
      distance is positive. */
  lemma {:induction false} OriginsExact(s: seq<Record>)
    ensures forall i :: 1 <= i < |s| ==> (i in Origins(s) <==> Gap(s[i - 1], s[i]) > 0)
    decreases |s|
  {
    if |s| >= 2 {
      var n := |s| - 1;
      var front := s[..n];
      OriginsExact(front);
      var before := Origins(front);
      var last: seq<nat> := if Gap(s[n - 1], s[n]) > 0 then [n] else [];
      assert Origins(s) == before + last;
      forall i | 1 <= i < |s|
        ensures i in Origins(s) <==> Gap(s[i - 1], s[i]) > 0
      {
        assert i in before + last <==> i in before || i in last;
        if i < n {
          assert front[i - 1] == s[i - 1] && front[i] == s[i];
          assert i !in last;
        } else {
          assert i !in before;
        }
      }
    }
  }

  /** Each point is the rate computed from the pair ending at its origin, and
      points come in the order of their origins. */
  lemma {:induction false} PointsAttributed(s: seq<Record>)
    ensures |Points(s)| == |Origins(s)|
    ensures forall j :: 0 <= j < |Points(s)| ==>
      Points(s)[j] == PointOf(s[Origins(s)[j] - 1], s[Origins(s)[j]])
    decreases |s|
  {
    if |s| >= 2 {
      var n := |s| - 1;
      PointsAttributed(s[..n]);
      var front := Points(s[..n]);
      var o := Origins(s[..n]);
      forall j | 0 <= j < |front|
        ensures Points(s)[j] == PointOf(s[Origins(s)[j] - 1], s[Origins(s)[j]])
      {
        assert Points(s)[j] == front[j];
        assert Origins(s)[j] == o[j];
        assert s[..n][o[j] - 1] == s[o[j] - 1] && s[..n][o[j]] == s[o[j]];
      }
    }
  }

  /** With strictly increasing odometer readings no pair is skipped: n records
      give exactly n - 1 points, the j-th from the pair (j, j + 1). */
  lemma {:induction false} StrictlyIncreasingGivesAllPoints(s: seq<Record>)
    requires |s| >= 1
    requires forall i :: 1 <= i < |s| ==> s[i - 1].kilometrage < s[i].kilometrage
    ensures |Points(s)| == |s| - 1
    ensures forall j :: 0 <= j < |s| - 1 ==> Points(s)[j] == PointOf(s[j], s[j + 1])
    decreases |s|
  {
    if |s| >= 2 {
      var n := |s| - 1;
      StrictlyIncreasingGivesAllPoints(s[..n]);
      forall j | 0 <= j < n - 1
        ensures Points(s)[j] == PointOf(s[j], s[j + 1])
      {
        assert Points(s)[j] == Points(s[..n])[j];
        assert s[..n][j] == s[j] && s[..n][j + 1] == s[j + 1];
      }
    }
  }

  /** No point at all exactly when no consecutive pair has a positive
      distance. */
  lemma NoPointsIffNoRise(s: seq<Record>)
    ensures Points(s) == [] <==> forall i :: 1 <= i < |s| ==> Gap(s[i - 1], s[i]) <= 0
  {
    OriginsExact(s);
    PointsAttributed(s);
    if Points(s) != [] {
      var o := Origins(s)[0];
      assert 1 <= o < |s| && Gap(s[o - 1], s[o]) > 0;
    } else {
      forall i | 1 <= i < |s|
        ensures Gap(s[i - 1], s[i]) <= 0
      {
        assert i !in Origins(s);
      }
    }
  }

  /** Volumes are never negative, so neither are the rates. */
  lemma {:induction false} RatesNonNegative(s: seq<Record>)
    requires forall i :: 0 <= i < |s| ==> s[i].litres >= 0.0
    ensures forall j :: 0 <= j < |Points(s)| ==> Points(s)[j].value >= 0.0
    decreases |s|
  {
    if |s| >= 2 {
      var n := |s| - 1;
      assert forall i :: 0 <= i < n ==> s[..n][i] == s[i];
      RatesNonNegative(s[..n]);
    }
  }

  /** On a sequence sorted by odometer, points are emitted in strictly
      ascending odometer order of the records they are dated by. */
  lemma AscendingOdometer(s: seq<Record>)
    requires SortedBy(s, KilometrageOf)
    ensures forall j, k :: 0 <= j < k < |Origins(s)| ==>
      s[Origins(s)[j]].kilometrage < s[Origins(s)[k]].kilometrage
  {
    var o := Origins(s);
    forall j, k | 0 <= j < k < |o|
      ensures s[o[j]].kilometrage < s[o[k]].kilometrage
    {
      assert o[j] <= o[k] - 1;
      assert KilometrageOf(s[o[j]]) <= KilometrageOf(s[o[k] - 1]);
    }
  }

  /** The distinct odometer readings of `s`. */
  function Odometers(s: seq<Record>): set<int> {
    set i | 0 <= i < |s| :: s[i].kilometrage
  }

  /** The readings of a non-empty sequence: those of all but its last record,
      plus that of its last record. */
  lemma OdometersSnoc(s: seq<Record>)
    requires |s| >= 1
    ensures Odometers(s) == Odometers(s[..|s| - 1]) + {s[|s| - 1].kilometrage}
  {
    var n := |s| - 1;
    var front := s[..n];
    forall x | x in Odometers(s)
      ensures x in Odometers(front) + {s[n].kilometrage}
    {
      var i :| 0 <= i < |s| && s[i].kilometrage == x;
      if i < n {
        assert front[i] == s[i];
      }
    }
    forall x | x in Odometers(front)
      ensures x in Odometers(s)
    {
      var i :| 0 <= i < |front| && front[i].kilometrage == x;
      assert s[i] == front[i];
    }
  }

  /** In a sorted sequence, the last reading is new exactly when it exceeds the
      one before it. */
  lemma LastReadingIsNew(s: seq<Record>)
    requires |s| >= 2
    requires SortedBy(s, KilometrageOf)
    ensures s[|s| - 1].kilometrage in Odometers(s[..|s| - 1]) <==> Gap(s[|s| - 2], s[|s| - 1]) <= 0
  {
    var n := |s| - 1;
    var front := s[..n];
    assert front[n - 1] == s[n - 1];
    if Gap(s[n - 1], s[n]) <= 0 {
      assert KilometrageOf(s[n - 1]) <= KilometrageOf(s[n]);
    }
  }

  /** Adding a record at the end adds a point exactly when its reading
      exceeds the one before it. */
  lemma PointCountSnoc(s: seq<Record>)
    requires |s| >= 2
    ensures |Points(s)| == |Points(s[..|s| - 1])| + if Gap(s[|s| - 2], s[|s| - 1]) > 0 then 1 else 0
  {
  }

  /** On a sequence sorted by odometer, the number of points is the number of
      distinct odometer readings minus one, whatever the order among records
      that share a reading. */
  lemma {:induction false} PointCountIsDistinctReadings(s: seq<Record>)
    requires |s| >= 1
    requires SortedBy(s, KilometrageOf)
    ensures |Points(s)| == |Odometers(s)| - 1
    decreases |s|
  {
    if |s| == 1 {
      SingleReading(s);
    } else {
      var n := |s| - 1;
      PrefixSorted(s, KilometrageOf, n);
      PointCountIsDistinctReadings(s[..n]);
      LastReadingIsNew(s);
      PointCountStep(s);
    }
  }

  /** The inductive step of the count, once the prefix is counted and the
      last reading is known to be new or repeated. */
  lemma PointCountStep(s: seq<Record>)
    requires |s| >= 2
    requires |Points(s[..|s| - 1])| == |Odometers(s[..|s| - 1])| - 1
    requires s[|s| - 1].kilometrage in Odometers(s[..|s| - 1]) <==> Gap(s[|s| - 2], s[|s| - 1]) <= 0
    ensures |Points(s)| == |Odometers(s)| - 1
  {
    PointCountSnoc(s);
    OdometersSnoc(s);
    CardinalityOfAddition(Odometers(s[..|s| - 1]), s[|s| - 1].kilometrage);
  }

  lemma SingleReading(s: seq<Record>)
    requires |s| == 1
    ensures |Odometers(s)| == 1
  {
    assert Odometers(s) == {s[0].kilometrage};
  }

  lemma CardinalityOfAddition(readings: set<int>, x: int)
    ensures |readings + {x}| == if x in readings then |readings| else |readings| + 1
  {
    if x in readings {
      assert readings + {x} == readings;
    }
  }

  /** Two arrangements of the same records sorted by odometer yield the same
      number of points, so the count does not depend on how the sort orders
      records with equal readings. */
  lemma TieOrderKeepsCount(s: seq<Record>, t: seq<Record>)
    requires multiset(s) == multiset(t)
    requires SortedBy(s, KilometrageOf) && SortedBy(t, KilometrageOf)
    ensures |Points(s)| == |Points(t)|
  {
    assert |s| == |multiset(s)| == |multiset(t)| == |t|;
    if |s| >= 1 {
      SameRecordsSameOdometers(s, t);
      PointCountIsDistinctReadings(s);
      PointCountIsDistinctReadings(t);
    }
  }

  lemma SameRecordsSameOdometers(s: seq<Record>, t: seq<Record>)
    requires multiset(s) == multiset(t)
    ensures Odometers(s) == Odometers(t)
  {
    forall x | x in Odometers(s)
      ensures x in Odometers(t)
    {
      var i :| 0 <= i < |s| && s[i].kilometrage == x;
      assert s[i] in multiset(t);
      var k :| 0 <= k < |t| && t[k] == s[i];
    }
    forall x | x in Odometers(t)
      ensures x in Odometers(s)
    {
      var i :| 0 <= i < |t| && t[i].kilometrage == x;
      assert t[i] in multiset(s);
      var k :| 0 <= k < |s| && s[k] == t[i];
    }
  }

  /** The points of three consecutive records: one per rising pair. */
  lemma PointsOfThree(x: Record, y: Record, z: Record)
    ensures Points([x, y, z])
      == (if Gap(x, y) > 0 then [PointOf(x, y)] else [])
       + (if Gap(y, z) > 0 then [PointOf(y, z)] else [])
  {
    var s := [x, y, z];
    assert s[..2] == [x, y];
    assert s[..2][..1] == [x];
  }

  /** When two records share a reading above a lower one, the point for the
      shared reading is dated by, and uses the volume of, whichever of the two
      comes first; the second gives no point. */
  lemma SharedReadingPointFollowsTieOrder(p: Record, a: Record, b: Record)
    requires p.kilometrage < a.kilometrage == b.kilometrage
    ensures Points([p, a, b]) == [PointOf(p, a)]
    ensures Points([p, b, a]) == [PointOf(p, b)]
  {
    PointsOfThree(p, a, b);
    PointsOfThree(p, b, a);
  }

  /** The point for the next higher reading after two records sharing a
      reading is the same whichever of the two comes first. */
  lemma NextReadingIgnoresTieOrder(a: Record, b: Record, c: Record)
    requires a.kilometrage == b.kilometrage < c.kilometrage
    ensures Points([a, b, c]) == [PointOf(a, c)]
    ensures Points([b, a, c]) == [PointOf(a, c)]
  {
    PointsOfThree(a, b, c);
    PointsOfThree(b, a, c);
  }

  /** The loop over the odometer-sorted diesel records: for each consecutive
      pair with a positive distance, one point dated by the later record. */
  method ComputeConsumption(filtre: seq<Record>) returns (conso: seq<Sample>)
    ensures conso == Points(filtre)
  {
    conso := [];
    if |filtre| < 2 {
      return;
    }
    var i := 1;
    while i < |filtre|
      invariant 1 <= i <= |filtre|
      invariant conso == Points(filtre[..i])
    {
      var kmDiff := filtre[i].kilometrage - filtre[i - 1].kilometrage;
      var litres := filtre[i].litres;
      assert filtre[..i + 1][..i] == filtre[..i];
      if kmDiff > 0 {
        conso := conso + [Sample(filtre[i].date, litres / (kmDiff as real) * 100.0)];
      }
      i := i + 1;
    }
    assert filtre[..i] == filtre;
  }

  /** The worked example: readings 1000, 1050 (5 L) and 1100 (6 L) give
      10 L/100 km at the second date and 12 L/100 km at the third. */
  lemma WorkedExample(d1: int, d2: int, d3: int, l1: real)
    ensures Points([Record(d1, 1000, Diesel, l1), Record(d2, 1050, Diesel, 5.0),
                    Record(d3, 1100, Diesel, 6.0)])
      == [Sample(d2, 10.0), Sample(d3, 12.0)]
  {
    var s := [Record(d1, 1000, Diesel, l1), Record(d2, 1050, Diesel, 5.0),
              Record(d3, 1100, Diesel, 6.0)];
    assert s[..2][..1] == [s[0]];
    assert Points(s[..2]) == [Sample(d2, 10.0)];
  }
}
