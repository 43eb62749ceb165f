# Camping-car fill-up log — a Dafny model

This project models the logic of a single-script camping-car fill-up log. Each
fill-up record has a date, an odometer reading (`kilometrage`), a fuel type
(`Diesel` or `AdBlue`) and a volume (`litres`). The script does four things with
them:

- it appends a submitted fill-up to the log and saves the whole log;
- it sorts the history by date;
- it keeps the records of the fuel type picked for the charts;
- for diesel, it sorts those records by odometer reading and computes a
  consumption in litres per 100 km from each consecutive pair whose distance is
  positive.

Modules:

- `Records` (`records.dfy`): the `Record` datatype, appending, and the filter
  by fuel type.
- `Sorting` (`sorting.dfy`): sorting by an integer key, which the script uses
  by date for the history and by odometer before the consumption loop.
- `Consumption` (`consumption.dfy`): the consumption loop (`ComputeConsumption`)
  and its reference definition (`Points`), with the skip rule, the rate formula,
  attribution to the later record, bounds on the number of points, and the
  sign of the rates.
- `Display` (`display.dfy`): what a pass decides to display. This is no chart,
  a volume chart, and a consumption chart or an "insufficient data" notice.
  The decision is a `View` value.
- `Session` (`session.dfy`): one pass of the script over an abstract log file
  (missing, or holding the last saved records). A pass loads the log, appends
  and saves a submitted fill-up, then renders.

Dates are abstract integers ordered as the timestamps are. Volumes are
`real`. The pandas sort used by the script (`sort_values`, default algorithm)
does not promise stability, so the order of records with equal keys is not fixed
by the source. `Sorting.SortBy` is one concrete choice: an insertion sort that
keeps equal keys in their input order (`Sorting.SortByIsStable`). The
consumption properties are proved for every arrangement sorted by odometer, not
only for that one. `Consumption.PointCountIsDistinctReadings` and
`Consumption.TieOrderKeepsCount` show that the number of consumption points does
not depend on the order of ties: it is the number of distinct readings minus
one. The dates and rates of the points can depend on that order. When two diesel
fill-ups share a reading above a lower one, the point for that shared reading is
dated by, and uses the volume of, whichever of them is sorted first
(`Consumption.SharedReadingPointFollowsTieOrder`). The point for the next higher
reading is the same whichever comes first
(`Consumption.NextReadingIgnoresTieOrder`).

Two diesel fill-ups entered with decreasing readings still give one point,
because the script sorts by reading before walking the pairs
(`Display.DecreasingReadingsStillGivePoint`). That point is dated by the record
with the higher reading. Only equal readings give no point.

The submitted record is built from the form's values. Its date, the chosen day
at the clock's time of day in the Europe/Paris zone, is an input of the model.

## Model

| member | source | states |
|---|---|---|
| Records.Append | app_camping_car.py:35-41 | the log grows by one, every earlier entry is unchanged, and the new record is last |
| Records.AppendKeepsValid | app_camping_car.py:23-41 | appending a record within the form's bounds (odometer ≥ 0, litres ≥ 0) to a log within them keeps every record within them |
| Records.OfType | app_camping_car.py:63 | the filter is no longer than the log and holds a record exactly when the log holds it with the selected type |
| Records.TypePositions | app_camping_car.py:63 | the selected positions are in range, hold the selected type, and are strictly ascending |
| Records.TypePositionsExact | app_camping_car.py:63 | a position of the log is selected if and only if its record has the selected type |
| Records.OfTypeIsOrderedSelection | app_camping_car.py:63 | the j-th filtered record is the record at the j-th selected position, so relative order is kept |
| Records.OfTypeCounts | app_camping_car.py:63 | each record of the selected type is kept as many times as it occurs; records of the other type never appear |
| Records.OfTypeRespectsPermutation | app_camping_car.py:53-63 | logs holding the same records give filters holding the same records, so sorting before filtering changes only the order |
| Records.AppendThenFilter | app_camping_car.py:41-63 | appending a record extends its own type's filter by that record and leaves the other type's filter unchanged |
| Sorting.InsertBy | app_camping_car.py:69 | inserting into a sorted sequence gives a sorted sequence with one more element, a permutation of the old one plus the new element |
| Sorting.SortBy | app_camping_car.py:69 | the sorted sequence is a permutation of its input (same multiset) in non-decreasing key order |
| Sorting.InsertByIsStable | app_camping_car.py:69 | for every key, inserting an element keeps the elements with that key in their order and puts the new one after them |
| Sorting.SortByIsStable | app_camping_car.py:53 | for every key, the sorted sequence lists the elements with that key in their input order (the model's choice for the order that pandas leaves unspecified) |
| Consumption.PointOf | app_camping_car.py:72-75 | a pair with positive distance gives a point dated by the later record whose rate times the distance equals 100 times the later volume, and is non-negative when that volume is |
| Consumption.Points | app_camping_car.py:68-75 | fewer than two records give no point; n ≥ 1 records give at most n − 1 points |
| Consumption.Origins | app_camping_car.py:71-75 | each point comes from a pair (i − 1, i) of the walked sequence with positive distance, and the pairs are strictly ascending |
| Consumption.OriginsExact | app_camping_car.py:74-75 | a consecutive pair emits a point if and only if its distance is positive (pairs with distance ≤ 0 are skipped) |
| Consumption.PointsAttributed | app_camping_car.py:72-75 | there is one point per emitting pair, in pair order, each equal to the rate formula applied to that pair's later record |
| Consumption.StrictlyIncreasingGivesAllPoints | app_camping_car.py:71-75 | strictly increasing readings give exactly n − 1 points, the j-th from the pair (j, j + 1) |
| Consumption.NoPointsIffNoRise | app_camping_car.py:71-81 | the loop yields no point if and only if no consecutive pair has positive distance |
| Consumption.RatesNonNegative | app_camping_car.py:73-75 | when every volume is ≥ 0 (the form's bound at line 26), every emitted rate is ≥ 0 |
| Consumption.AscendingOdometer | app_camping_car.py:69-75 | on an odometer-sorted sequence, points are emitted in strictly ascending odometer order of the records that date them |
| Consumption.OdometersSnoc | app_camping_car.py:69-75 | the readings of a sequence are those of its prefix plus the reading of its last record |
| Consumption.LastReadingIsNew | app_camping_car.py:69-75 | in an odometer-sorted sequence the last reading is already present exactly when the last pair's distance is ≤ 0 |
| Consumption.PointCountIsDistinctReadings | app_camping_car.py:69-75 | on any odometer-sorted sequence, the number of points is the number of distinct readings minus one |
| Consumption.TieOrderKeepsCount | app_camping_car.py:69 | two odometer-sorted arrangements of the same records give the same number of points, whatever the order among equal readings |
| Consumption.SharedReadingPointFollowsTieOrder | app_camping_car.py:69-75 | when two records share a reading above a lower one, the point for the shared reading comes from whichever is sorted first, and the other gives no point |
| Consumption.NextReadingIgnoresTieOrder | app_camping_car.py:69-75 | after two records sharing a reading, the point for the next higher reading is the same whichever of them is sorted first |
| Consumption.ComputeConsumption | app_camping_car.py:70-75 | the loop over consecutive pairs computes exactly the reference sequence of points |
| Consumption.WorkedExample | app_camping_car.py:71-75 | readings 1000, 1050 (5 L), 1100 (6 L) give 10 L/100 km at the second date and 12 L/100 km at the third |
| Display.VolumeSeries | app_camping_car.py:66 | the volume chart has one sample per filtered record, and a sample is plotted exactly when some filtered record has that date and volume |
| Display.ConsumptionFor | app_camping_car.py:68-81 | consumption is considered exactly for diesel with at least two filtered records, and a chart then has at least one point and fewer points than records |
| Display.Render | app_camping_car.py:50-83 | nothing is shown exactly when the log is empty; a volume chart has at least one and at most as many points as the log has records; AdBlue never gets a consumption part, and diesel gets one once its volume chart has two points |
| Display.FilteredHistoryHoldsLogRecords | app_camping_car.py:52-63 | filtering the date-sorted history keeps the same records, with the same multiplicities, as filtering the log |
| Display.VolumeChartContents | app_camping_car.py:63-66 | when the log holds a record of the picked type, charts are shown and the volume chart has one point per record of the picked type, in date order, each the date and litres of such a record |
| Display.FilterKeepsDateOrder | app_camping_car.py:53-63 | filtering a date-sorted history keeps it sorted by date |
| Display.ChartsIffTypePresent | app_camping_car.py:50-66 | charts are shown if and only if the log holds a record of the picked type |
| Display.ConsumptionConsideredIff | app_camping_car.py:68 | consumption is considered if and only if the picked type is diesel and the log holds at least two diesel records |
| Display.ConsumptionPointCount | app_camping_car.py:68-81 | with at least two diesel records, the "insufficient data" notice is shown if and only if all diesel readings are equal; otherwise the chart has one point per distinct reading after the first |
| Display.FilterIsolation | app_camping_car.py:41-83 | adding a record of one type to a non-empty log leaves the whole display for the other type unchanged |
| Display.InsertOtherTypeKeepsFilter | app_camping_car.py:53-63 | inserting a record of another type into the date-sorted history leaves the filtered records unchanged |
| Display.DecreasingReadingsStillGivePoint | app_camping_car.py:68-75 | two diesel records logged with decreasing readings give one consumption point, built from the pair in ascending reading order |
| Session.Load | app_camping_car.py:10-14 | a missing file reads as the empty log |
| Session.Persist | app_camping_car.py:43-44 | the saved file reads back as exactly the saved log |
| Session.Submit | app_camping_car.py:32-44 | the saved log is the loaded log with the submitted record added last, earlier records unchanged |
| Session.Pass | app_camping_car.py:10-83 | a pass displays the log it leaves in the file; without a submission the file is untouched, with one it holds the loaded log followed by the submitted record |
| Session.LoadAfterPersist | app_camping_car.py:10-14 | reading back a saved log gives that log; a missing file reads as the empty log |
| Session.PassWithoutSubmission | app_camping_car.py:32-57 | a pass without submission leaves the file unchanged and displays the loaded log |
| Session.SubmissionAppends | app_camping_car.py:32-44 | a submission saves a log one longer, with the earlier records unchanged and the new record last, and the same pass displays that log |
| Session.SubmissionKeepsValid | app_camping_car.py:23-44 | a submitted record within the form's bounds (odometer ≥ 0, litres ≥ 0) keeps the saved log within them |
| Session.SubmissionIsolation | app_camping_car.py:32-83 | submitting a fill-up of one type does not change what that pass displays for the other type |
| Session.LogIsAppendOnly | app_camping_car.py:41-44 | after any series of submissions the saved log is the original log followed by the submitted records in submission order |

## Left out

- Streamlit widgets, layout, titles, success/info/warning messages and chart drawing (lines 17-30, 46, 49, 57-61, 66, 76-83). The display decision is modelled as a `View` value; drawing it is not modelled.
- The submit button's disabled state (lines 28-30). It is a UI guard, and the number inputs always hold a value.
- JSON encoding and decoding, and the file-system error cases other than the missing file (lines 10-14, 43-44). The file is an abstract value that is missing or holds the last saved records.
- The clock, the Europe/Paris time zone and ISO formatting (lines 8, 33-36). The submitted record's date is an input.
- pandas date parsing with coercion of bad strings to NaT, and the latest-date line with `max().strftime` (lines 52, 55). Dates are abstract integers that always parse.
- IEEE floating point for `litres` and the rate. Both are exact reals here.
- The order that pandas' default sort gives to records with equal dates or equal readings. This order is unspecified. The model fixes one stable sort, and states the consumption properties for every odometer-sorted arrangement.
- Display.VolumeChartContents: states the number of points, their date order, and that each comes from a log record of the picked type. It does not state that the samples form the same multiset as the records' (date, litres) pairs.
