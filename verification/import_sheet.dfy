/** The whole-sheet validation loop: rows are checked in order and the rows
    with messages are collected; a row that throws ends the loop, and the
    rows collected so far are the result.

    The loop's logic depends on each row only through the row's outcome, so
    it is stated over the sequence of outcomes (`Report`), and
    `RowOutcomes` ties the outcomes to the row checks. */
module ImportSheet {
  import opened Results
  import opened Calendar
  import opened ImportValidation

  /** One entry of the result: the 1-based row number and the row's errors. */
  datatype RowErrors = RowErrors(row: int, errors: ErrorRecord)

  /** The result for the outcomes from `from` on: rows with messages, up to
      the first row that throws. */
  function Report(outcomes: seq<Option<ErrorRecord>>, from: nat): seq<RowErrors>
    requires from <= |outcomes|
    decreases |outcomes| - from
  {
    if from == |outcomes| then []
    else match outcomes[from]
      case None => []
      case Some(rec) =>
        (if rec == [] then [] else [RowErrors(from + 1, rec)]) + Report(outcomes, from + 1)
  }

  /** The result when no row throws. */
  function ReportAll(records: seq<ErrorRecord>, from: nat): seq<RowErrors>
    requires from <= |records|
    decreases |records| - from
  {
    if from == |records| then []
    else
      (if records[from] == [] then [] else [RowErrors(from + 1, records[from])]) + ReportAll(records, from + 1)
  }

  /** Entries name rows `lo + 1 ..= hi` in increasing order, each with at
      least one message. */
  predicate WellFormedReport(errors: seq<RowErrors>, lo: int, hi: int) {
    && (forall k :: 0 <= k < |errors| ==> lo < errors[k].row <= hi && errors[k].errors != [])
    && (forall a, b :: 0 <= a < b < |errors| ==> errors[a].row < errors[b].row)
  }

  /** A row's errors as the loop may report them: no key twice, no floor
      key. */
  predicate GoodRecord(rec: ErrorRecord) {
    DistinctFields(rec) && Floor !in Fields(rec)
  }

  lemma {:induction false} ReportWellFormed(outcomes: seq<Option<ErrorRecord>>, from: nat)
    requires from <= |outcomes|
    ensures WellFormedReport(Report(outcomes, from), from, |outcomes|)
    ensures (forall i :: from <= i < |outcomes| && outcomes[i].Some? ==> GoodRecord(outcomes[i].value))
            ==> forall k :: 0 <= k < |Report(outcomes, from)| ==> GoodRecord(Report(outcomes, from)[k].errors)
    decreases |outcomes| - from
  {
    if from < |outcomes| && outcomes[from].Some? {
      ReportWellFormed(outcomes, from + 1);
    }
  }

  /** The row numbers a result names. */
  function ReportedRows(errors: seq<RowErrors>): set<int> {
    if errors == [] then {} else {errors[0].row} + ReportedRows(errors[1..])
  }

  lemma {:induction false} ReportedRowsAppend(a: seq<RowErrors>, b: seq<RowErrors>)
    ensures ReportedRows(a + b) == ReportedRows(a) + ReportedRows(b)
  {
    if a == [] {
      assert a + b == b;
    } else {
      assert (a + b)[0] == a[0];
      assert (a + b)[1..] == a[1..] + b;
      ReportedRowsAppend(a[1..], b);
    }
  }

  /** Every row a result from `from` on names lies after `from` and within
      the sheet. */
  lemma {:induction false} ReportRowsAfter(outcomes: seq<Option<ErrorRecord>>, from: nat)
    requires from <= |outcomes|
    ensures forall x :: x in ReportedRows(Report(outcomes, from)) ==> from < x <= |outcomes|
    decreases |outcomes| - from
  {
    if from < |outcomes| && outcomes[from].Some? {
      var rec := outcomes[from].value;
      var head := if rec == [] then [] else [RowErrors(from + 1, rec)];
      ReportRowsAfter(outcomes, from + 1);
      ReportedRowsAppend(head, Report(outcomes, from + 1));
    }
  }

  /** No row from `from` to `i` throws. */
  predicate NoThrowThrough(outcomes: seq<Option<ErrorRecord>>, from: int, i: int)
    requires 0 <= from && i < |outcomes|
  {
    forall j :: from <= j <= i ==> outcomes[j].Some?
  }

  /** Row `i` is reported exactly when no row from `from` to `i` throws and
      row `i` has messages. */
  lemma {:induction false} ReportNamesRowsBeforeFirstThrow(outcomes: seq<Option<ErrorRecord>>, from: nat, i: int)
    requires from <= i < |outcomes|
    ensures i + 1 in ReportedRows(Report(outcomes, from))
            <==> NoThrowThrough(outcomes, from, i) && outcomes[i].value != []
    decreases |outcomes| - from
  {
    if outcomes[from].Some? {
      var rec := outcomes[from].value;
      var head := if rec == [] then [] else [RowErrors(from + 1, rec)];
      ReportedRowsAppend(head, Report(outcomes, from + 1));
      if from == i {
        ReportRowsAfter(outcomes, from + 1);
      } else {
        ReportNamesRowsBeforeFirstThrow(outcomes, from + 1, i);
      }
    }
  }

  /** When no row throws, the loop's result is the result over all rows. */
  lemma {:induction false} ReportWithoutThrows(outcomes: seq<Option<ErrorRecord>>, records: seq<ErrorRecord>, from: nat)
    requires |records| == |outcomes| && from <= |outcomes|
    requires forall i :: from <= i < |outcomes| ==> outcomes[i] == Some(records[i])
    ensures Report(outcomes, from) == ReportAll(records, from)
    decreases |outcomes| - from
  {
    if from < |outcomes| {
      ReportWithoutThrows(outcomes, records, from + 1);
    }
  }

  /** Without throws, row `i` is reported exactly when it has messages. */
  lemma ReportAllNamesRowsWithMessages(records: seq<ErrorRecord>, from: nat)
    requires from <= |records|
    ensures forall i :: from <= i < |records| ==>
              (i + 1 in ReportedRows(ReportAll(records, from)) <==> records[i] != [])
    ensures forall x :: x in ReportedRows(ReportAll(records, from)) ==> from < x <= |records|
  {
    var outcomes := seq(|records|, i requires 0 <= i < |records| => Some(records[i]));
    ReportWithoutThrows(outcomes, records, from);
    forall i | from <= i < |records|
      ensures i + 1 in ReportedRows(ReportAll(records, from)) <==> records[i] != []
    {
      ReportNamesRowsBeforeFirstThrow(outcomes, from, i);
    }
    ReportRowsAfter(outcomes, from);
  }

  /* ---------- the sheet ---------- */

  predicate ValidInputs(rows: seq<DataRow>, lookups: seq<Lookups>, today: Date) {
    |lookups| == |rows| && Valid(today) && forall i :: 0 <= i < |lookups| ==> ValidLookups(lookups[i])
  }

  /** Whether row `i` throws. */
  predicate RowCrashes(rows: seq<DataRow>, lookups: seq<Lookups>, i: int)
    requires |lookups| == |rows| && 0 <= i < |rows|
  {
    Throws(rows[i], lookups[i])
  }

  /** Whether row `i` is acceptable. */
  predicate RowAcceptable(sheet: Sheet, rows: seq<DataRow>, lookups: seq<Lookups>, today: Date, i: int)
    requires ValidInputs(rows, lookups, today) && 0 <= i < |rows|
  {
    Acceptable(sheet, rows[i], lookups[i], today)
  }

  /** The outcome of every row as written. */
  function RowOutcomes(sheet: Sheet, rows: seq<DataRow>, lookups: seq<Lookups>, today: Date): (o: seq<Option<ErrorRecord>>)
    requires ValidInputs(rows, lookups, today)
    ensures |o| == |rows|
    ensures forall i :: 0 <= i < |rows| ==> (o[i].None? <==> RowCrashes(rows, lookups, i))
    ensures forall i :: 0 <= i < |rows| && o[i].Some? ==>
              (o[i].value == [] <==> RowAcceptable(sheet, rows, lookups, today, i))
              && GoodRecord(o[i].value)
  {
    seq(|rows|, i requires 0 <= i < |rows| => CheckRow(sheet, rows[i], lookups[i], today))
  }

  /** The errors of every row with the corrected checks. */
  function CorrectedRecords(sheet: Sheet, rows: seq<DataRow>, lookups: seq<Lookups>, today: Date): (r: seq<ErrorRecord>)
    requires ValidInputs(rows, lookups, today)
    ensures |r| == |rows|
    ensures forall i :: 0 <= i < |rows| ==>
              (r[i] == [] <==> RowAcceptable(sheet, rows, lookups, today, i)) && DistinctFields(r[i])
    ensures forall i :: 0 <= i < |rows| && !RowCrashes(rows, lookups, i) ==>
              RowOutcomes(sheet, rows, lookups, today)[i] == Some(r[i])
  {
    seq(|rows|, i requires 0 <= i < |rows| => CheckRowCorrected(sheet, rows[i], lookups[i], today))
  }

  /** The validation as written: the rows' outcomes, collected up to the
      first throw. The lookups of the rows after a throw are never read. */
  method ValidateSheet(sheet: Sheet, rows: seq<DataRow>, lookups: seq<Lookups>, today: Date)
    returns (errors: seq<RowErrors>)
    requires ValidInputs(rows, lookups, today)
    ensures errors == Report(RowOutcomes(sheet, rows, lookups, today), 0)
    ensures WellFormedReport(errors, 0, |rows|)
    ensures forall k :: 0 <= k < |errors| ==> GoodRecord(errors[k].errors)
  {
    var outcomes := RowOutcomes(sheet, rows, lookups, today);
    errors := CollectUntilThrow(outcomes);
    ReportWellFormed(outcomes, 0);
  }

  /** The loop of the validators: the entries of the rows with messages, in
      order, until a row throws. */
  method CollectUntilThrow(outcomes: seq<Option<ErrorRecord>>) returns (errors: seq<RowErrors>)
    ensures errors == Report(outcomes, 0)
  {
    errors := [];
    var i := 0;
    while i < |outcomes|
      invariant 0 <= i <= |outcomes|
      invariant errors + Report(outcomes, i) == Report(outcomes, 0)
    {
      var checked := outcomes[i];
      if checked.None? {
        assert errors + [] == errors;
        return;
      }
      var entry := if checked.value == [] then [] else [RowErrors(i + 1, checked.value)];
      assert Report(outcomes, i) == entry + Report(outcomes, i + 1);
      assert (errors + entry) + Report(outcomes, i + 1) == errors + (entry + Report(outcomes, i + 1));
      errors := errors + entry;
      i := i + 1;
    }
    assert errors + [] == errors;
  }

  /** As written, row `i` is reported exactly when no row up to it throws
      and it is not acceptable: a throwing row and every row after it go
      unreported whatever they hold. */
  lemma ReportsUntilFirstCrash(sheet: Sheet, rows: seq<DataRow>, lookups: seq<Lookups>, today: Date, i: int)
    requires ValidInputs(rows, lookups, today) && 0 <= i < |rows|
    ensures i + 1 in ReportedRows(Report(RowOutcomes(sheet, rows, lookups, today), 0))
            <==> (forall j :: 0 <= j <= i ==> !RowCrashes(rows, lookups, j))
                 && !RowAcceptable(sheet, rows, lookups, today, i)
  {
    ReportNamesRowsBeforeFirstThrow(RowOutcomes(sheet, rows, lookups, today), 0, i);
  }

  /** The validation with the corrected row checks. */
  function CorrectedReport(sheet: Sheet, rows: seq<DataRow>, lookups: seq<Lookups>, today: Date): (errors: seq<RowErrors>)
    requires ValidInputs(rows, lookups, today)
    ensures forall i :: 0 <= i < |rows| ==>
              (i + 1 in ReportedRows(errors) <==> !RowAcceptable(sheet, rows, lookups, today, i))
    ensures forall x :: x in ReportedRows(errors) ==> 0 < x <= |rows|
  {
    var records := CorrectedRecords(sheet, rows, lookups, today);
    ReportAllNamesRowsWithMessages(records, 0);
    ReportAll(records, 0)
  }

  /** The correction changes nothing for a sheet in which no row throws. */
  lemma CorrectionKeepsSheetsWithoutCrash(sheet: Sheet, rows: seq<DataRow>, lookups: seq<Lookups>, today: Date)
    requires ValidInputs(rows, lookups, today)
    requires forall i :: 0 <= i < |rows| ==> !RowCrashes(rows, lookups, i)
    ensures Report(RowOutcomes(sheet, rows, lookups, today), 0) == CorrectedReport(sheet, rows, lookups, today)
  {
    ReportWithoutThrows(RowOutcomes(sheet, rows, lookups, today), CorrectedRecords(sheet, rows, lookups, today), 0);
  }

  /** A sheet whose first row names a room that no floor lists passes
      validation as written, although that row is not acceptable; the
      corrected validation reports it. */
  lemma FloorlessFirstRowPasses(sheet: Sheet, rows: seq<DataRow>, lookups: seq<Lookups>, today: Date)
    requires ValidInputs(rows, lookups, today) && |rows| > 0
    requires FoundRoom(rows[0], lookups[0]).Some? && !lookups[0].floorFound
    ensures Report(RowOutcomes(sheet, rows, lookups, today), 0) == []
    ensures !RowAcceptable(sheet, rows, lookups, today, 0)
    ensures 1 in ReportedRows(CorrectedReport(sheet, rows, lookups, today))
  {
    assert RowCrashes(rows, lookups, 0);
  }

  /** A sheet whose first row holds a `roomId` that is not an object id
      passes validation as written; the corrected validation reports the
      row, with the "room does not exist" message. */
  lemma MalformedIdFirstRowPasses(sheet: Sheet, rows: seq<DataRow>, lookups: seq<Lookups>, today: Date)
    requires ValidInputs(rows, lookups, today) && |rows| > 0
    requires IdCastFails(rows[0], lookups[0])
    ensures Report(RowOutcomes(sheet, rows, lookups, today), 0) == []
    ensures !RowAcceptable(sheet, rows, lookups, today, 0)
    ensures 1 in ReportedRows(CorrectedReport(sheet, rows, lookups, today))
  {
    assert RowCrashes(rows, lookups, 0);
  }
}
