/** One execution pass of the script: load the log, append and save the
    submitted fill-up if the form was submitted, then display the log. The
    JSON file is abstracted to a value that is either missing or holds the
    last saved records. */
module Session {
  import opened Records
  import opened Display

  /** The persisted log: absent before the first save. */
  datatype LogFile = Missing | Saved(records: seq<Record>)

  /** Reading the log; a missing file reads as an empty log. */
  function Load(f: LogFile): (data: seq<Record>)
    ensures f.Missing? ==> data == []
  {
    match f
    case Missing => []
    case Saved(records) => records
  }

  /** Saving overwrites the whole file with the full log, which reading it
      back returns. */
  function Persist(data: seq<Record>): (f: LogFile)
    ensures f.Saved?
    ensures Load(f) == data
  {
    Saved(data)
  }

  /** Saving a submitted fill-up: the new record goes at the end of the log
      read from `f`, and the whole log is written back. `r` holds the form's
      values, its date being the chosen day at the clock's time of day in the
      configured zone, supplied from outside. */
  function Submit(f: LogFile, r: Record): (g: LogFile)
    ensures |Load(g)| == |Load(f)| + 1
    ensures Load(g)[..|Load(f)|] == Load(f)
    ensures Load(g)[|Load(f)|] == r
  {
    Persist(Append(Load(f), r))
  }

  /** Whether the form was submitted during this pass, and with which
      record. */
  datatype Submission = NoSubmission | Submitted(record: Record)

  /** What a pass leaves behind: the file and what it displayed. */
  datatype Outcome = Outcome(file: LogFile, view: View)

  /** One pass over the file `f` with `selected` picked for the charts. What
      it displays is always the log it leaves in the file; without a
      submission the file is untouched, and with one the file holds the
      loaded log followed by the submitted record. */
  function Pass(f: LogFile, submission: Submission, selected: FuelType): (o: Outcome)
    ensures o.view == Render(Load(o.file), selected)
    ensures submission.NoSubmission? ==> o.file == f
    ensures submission.Submitted? ==> Load(o.file) == Load(f) + [submission.record]
  {
    var data := Load(f);
    match submission
    case NoSubmission => Outcome(f, Render(data, selected))
    case Submitted(r) =>
      var saved := Submit(f, r);
      assert Load(saved) == Load(f) + [r];
      Outcome(saved, Render(Load(saved), selected))
  }

  /** Reading back what was saved gives the saved log, and a missing file
      gives the empty log. */
  lemma LoadAfterPersist(data: seq<Record>)
    ensures Load(Persist(data)) == data
    ensures Load(Missing) == []
  {
  }

  /** A pass without submission leaves the file as it was. */
  lemma PassWithoutSubmission(f: LogFile, selected: FuelType)
    ensures Pass(f, NoSubmission, selected).file == f
    ensures Pass(f, NoSubmission, selected).view == Render(Load(f), selected)
  {
  }

  /** A submission grows the saved log by exactly the new record, leaves the
      earlier records as they were, and the same pass displays the grown
      log. */
  lemma SubmissionAppends(f: LogFile, r: Record, selected: FuelType)
    ensures |Load(Pass(f, Submitted(r), selected).file)| == |Load(f)| + 1
    ensures Load(Pass(f, Submitted(r), selected).file)[..|Load(f)|] == Load(f)
    ensures Load(Pass(f, Submitted(r), selected).file)[|Load(f)|] == r
    ensures Pass(f, Submitted(r), selected).view
      == Render(Load(Pass(f, Submitted(r), selected).file), selected)
  {
  }

  /** A submission within the form's bounds keeps every saved record within
      them. */
  lemma SubmissionKeepsValid(f: LogFile, r: Record, selected: FuelType)
    requires AllValid(Load(f)) && Valid(r)
    ensures AllValid(Load(Pass(f, Submitted(r), selected).file))
  {
    AppendKeepsValid(Load(f), r);
  }

  /** Submitting a fill-up of one type does not change what the same pass
      displays for the other type, once the log was non-empty. */
  lemma SubmissionIsolation(f: LogFile, r: Record, selected: FuelType)
    requires Load(f) != []
    requires r.fuel != selected
    ensures Pass(f, Submitted(r), selected).view == Pass(f, NoSubmission, selected).view
  {
    FilterIsolation(Load(f), r, selected);
  }

  /** The file after a series of passes, each submitting the next record. */
  function SubmitAll(f: LogFile, records: seq<Record>): LogFile
    decreases |records|
  {
    if records == [] then f
    else SubmitAll(Submit(f, records[0]), records[1..])
  }

  /** The log is append-only: after any series of submissions it is the
      original log followed by the submitted records, in submission order. */
  lemma {:induction false} LogIsAppendOnly(f: LogFile, records: seq<Record>)
    ensures Load(SubmitAll(f, records)) == Load(f) + records
    decreases |records|
  {
    if records != [] {
      LogIsAppendOnly(Submit(f, records[0]), records[1..]);
      assert Load(Submit(f, records[0])) == Load(f) + [records[0]];
      assert Load(f) + [records[0]] + records[1..] == Load(f) + records;
    }
  }
}
