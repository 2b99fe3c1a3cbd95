/** `process_excel_file`: one run over an input table, from the copy of the
    input file to the two workbooks it writes.

    The file system is outside the model. What the reader returns for the
    input file arrives as an `Option<Table>` (`None` for a file pandas cannot
    read), the two `datetime.now()` stamps arrive formatted, and the order in
    which the rows finish arrives as a sequence of outcomes. Every row opens
    its own browser session: `session(i)` is what the calculator shows to the
    session of the row at position `i`, so rows asking for the same quote may
    still fare differently. */
module Pipeline {
  import opened Wrappers
  import opened Charges
  import opened Rows
  import opened Aggregate
  import opened Files

  /** A table as pandas reads it: its column names and its rows. */
  datatype Table = Table(columns: seq<string>, records: seq<Record>)

  /** The columns copied into the parameter workbook; selecting them fails
      when one is missing. */
  const RequiredColumns: seq<string> := [
    "SL_N0", "SYMBOL", "LOT_SIZE", "NO_OF_LOTS", "TOTAL_LOT_SIZE", "BUY_VALUE", "SELL_VALUE"]

  predicate HasColumns(columns: seq<string>) {
    forall i :: 0 <= i < |RequiredColumns| ==> RequiredColumns[i] in columns
  }

  /** Everything one successful run produces. */
  datatype Report = Report(
    copyPath: string, reader: Reader, parameterFile: string, parameterRows: seq<Record>,
    summaryFile: string, rows: seq<OutputRow>)

  /** The outcome of each row of a table, in table order. */
  function Outcomes(records: seq<Record>, session: nat -> Request -> Option<Scrape>, render: real -> string)
    : (r: seq<Outcome>)
    ensures |r| == |records|
    ensures forall i :: 0 <= i < |records| ==>
      r[i] == OutcomeOf(ProcessRow(records[i], session(i), render))
    ensures KeysFrom(r, records)
  {
    var process := (i: nat, rec: Record) => ProcessRow(rec, session(i), render);
    assert forall n, rec :: process(n, rec).Some? ==> process(n, rec).value.slNo == rec.slNo by {
      forall n: nat, rec: Record | process(n, rec).Some?
        ensures process(n, rec).value.slNo == rec.slNo
      {
        assert process(n, rec) == ProcessRow(rec, session(n), render);
      }
    }
    DispatchKeys(0, records, process);
    Dispatch(0, records, process)
  }

  /** `process_excel_file`; `None` is the `(None, None)` it returns after
      any exception. `arrival` is the order `as_completed` yields the rows
      in: every row's outcome exactly once. */
  function ProcessExcelFile(
    inputPath: string, inputDir: string, outputDir: string,
    copyStamp: string, reportStamp: string, read: Option<Table>,
    arrival: seq<Outcome>, session: nat -> Request -> Option<Scrape>, render: real -> string)
    : (r: Option<Report>)
    requires read.Some? ==>
      multiset(arrival) == multiset(Outcomes(read.value.records, session, render))
    ensures r.Some? <==>
      read.Some? && HasColumns(read.value.columns) && |read.value.records| > 0
    ensures r.Some? ==>
      var t := read.value;
      var symbol := t.records[0].symbol;
      && r.value.copyPath == Join(inputDir, CopyName(inputPath, copyStamp))
      && r.value.reader == ReaderFor(inputPath)
      && r.value.parameterFile == ParameterName(symbol)
      && r.value.parameterRows == t.records
      && r.value.summaryFile == Join(outputDir, SummaryName(symbol, reportStamp))
      && r.value.rows == Collect(arrival)
  {
    match read
    case None => None
    case Some(t) =>
      if |t.records| > 0 || "SYMBOL" !in t.columns then
        var symbol := SymbolOf("SYMBOL" in t.columns, if |t.records| > 0 then t.records[0].symbol else "");
        if HasColumns(t.columns) then
          assert "SYMBOL" in t.columns by { assert RequiredColumns[1] == "SYMBOL"; }
          Some(Report(
            Join(inputDir, CopyName(inputPath, copyStamp)), ReaderFor(inputPath),
            ParameterName(symbol), t.records,
            Join(outputDir, SummaryName(symbol, reportStamp)), Collect(arrival)))
        else None
      else None
  }

  /** The summary holds exactly the rows whose quote succeeded, each as often
      as the table produced it, sorted by `SL_N0`, and rows with equal
      `SL_N0` in the order they completed. */
  lemma SummaryRows(
    inputPath: string, inputDir: string, outputDir: string,
    copyStamp: string, reportStamp: string, t: Table,
    arrival: seq<Outcome>, session: nat -> Request -> Option<Scrape>, render: real -> string)
    requires multiset(arrival) == multiset(Outcomes(t.records, session, render))
    requires HasColumns(t.columns) && |t.records| > 0
    ensures var r := ProcessExcelFile(inputPath, inputDir, outputDir, copyStamp, reportStamp,
                                      Some(t), arrival, session, render);
            && r.Some?
            && Sorted(r.value.rows)
            && |r.value.rows| == |Successes(Outcomes(t.records, session, render))|
            && (forall row :: multiset(r.value.rows)[row]
                              == multiset(Outcomes(t.records, session, render))[Done(row)])
            && (forall k :: WithKey(r.value.rows, k) == WithKey(Successes(arrival), k))
  {
    var d := Outcomes(t.records, session, render);
    CollectSpec(arrival);
    SuccessesPermute(arrival, d);
    assert |multiset(Successes(arrival))| == |multiset(Successes(d))|;
  }

  /** A successful run names both workbooks after the first row's symbol:
      the `UNKNOWN` fallback never reaches a file name. */
  lemma ReportNames(
    inputPath: string, inputDir: string, outputDir: string,
    copyStamp: string, reportStamp: string, t: Table,
    arrival: seq<Outcome>, session: nat -> Request -> Option<Scrape>, render: real -> string)
    requires multiset(arrival) == multiset(Outcomes(t.records, session, render))
    requires HasColumns(t.columns) && |t.records| > 0
    ensures var r := ProcessExcelFile(inputPath, inputDir, outputDir, copyStamp, reportStamp,
                                      Some(t), arrival, session, render).value;
            var symbol := t.records[0].symbol;
            && r.parameterFile == symbol + ParameterSuffix
            && r.summaryFile == Join(outputDir, symbol + SummaryInfix + reportStamp + SummarySuffix)
  {
    var r := ProcessExcelFile(inputPath, inputDir, outputDir, copyStamp, reportStamp,
                              Some(t), arrival, session, render);
    var symbol := t.records[0].symbol;
    assert r.value.parameterFile == ParameterName(symbol);
    assert r.value.summaryFile == Join(outputDir, SummaryName(symbol, reportStamp));
  }

  /** Every row of a summary comes from a record of the table whose quote
      succeeded, and carries that record's key, symbol and cells. */
  lemma SummaryRowOrigin(
    t: Table, arrival: seq<Outcome>, session: nat -> Request -> Option<Scrape>, render: real -> string,
    row: OutputRow)
    requires multiset(arrival) == multiset(Outcomes(t.records, session, render))
    requires row in Collect(arrival)
    ensures exists i :: 0 <= i < |t.records| && ProcessRow(t.records[i], session(i), render) == Some(row)
  {
    var d := Outcomes(t.records, session, render);
    CollectOrigin(d, arrival, row);
    var i :| 0 <= i < |d| && d[i] == Done(row);
    var r := ProcessRow(t.records[i], session(i), render);
    assert d[i] == OutcomeOf(r);
    assert r == Some(row) by {
      match r
      case Some(_) =>
      case None =>
    }
  }

  /** A row whose quote has no turnover never reaches the summary. */
  lemma SummaryTurnoverNonZero(
    t: Table, arrival: seq<Outcome>, session: nat -> Request -> Option<Scrape>, render: real -> string,
    row: OutputRow)
    requires multiset(arrival) == multiset(Outcomes(t.records, session, render))
    requires row in Collect(arrival)
    ensures row.totalPremiumValue != 0.0
  {
    SummaryRowOrigin(t, arrival, session, render, row);
    var i :| 0 <= i < |t.records| && ProcessRow(t.records[i], session(i), render) == Some(row);
    var q := QuoteFor(Convert(t.records[i]).value);
    assert CalculateBrokerage(q, session(i)(q), render).Some?;
  }

  /** With distinct `SL_N0` values in the table, the report does not depend on
      the order in which the rows complete. */
  lemma ReportOrderIndependent(
    inputPath: string, inputDir: string, outputDir: string,
    copyStamp: string, reportStamp: string, t: Table,
    a: seq<Outcome>, b: seq<Outcome>, session: nat -> Request -> Option<Scrape>, render: real -> string)
    requires multiset(a) == multiset(Outcomes(t.records, session, render))
    requires multiset(b) == multiset(Outcomes(t.records, session, render))
    requires UniqueRecordKeys(t.records)
    ensures ProcessExcelFile(inputPath, inputDir, outputDir, copyStamp, reportStamp, Some(t), a, session, render)
         == ProcessExcelFile(inputPath, inputDir, outputDir, copyStamp, reportStamp, Some(t), b, session, render)
  {
    UniqueKeysKept(Outcomes(t.records, session, render), t.records);
    SuccessesPermute(a, Outcomes(t.records, session, render));
    assert UniqueKeys(Successes(a)) by {
      UniqueKeysPermute(Successes(Outcomes(t.records, session, render)), Successes(a));
    }
    CollectOrderIndependent(a, b);
  }

  /** A missing required column, an empty table or an unreadable file fails
      the whole run. */
  lemma MissingColumnFails(
    inputPath: string, inputDir: string, outputDir: string,
    copyStamp: string, reportStamp: string, t: Table,
    arrival: seq<Outcome>, session: nat -> Request -> Option<Scrape>, render: real -> string, c: nat)
    requires multiset(arrival) == multiset(Outcomes(t.records, session, render))
    requires c < |RequiredColumns| && RequiredColumns[c] !in t.columns
    ensures ProcessExcelFile(inputPath, inputDir, outputDir, copyStamp, reportStamp,
                             Some(t), arrival, session, render).None?
  {
  }

  /** The copy lands in the input directory under its own name, and keeps the
      extension of the original. */
  lemma CopyPathName(inputPath: string, inputDir: string, copyStamp: string)
    requires NoPoint(copyStamp) && NoSlash(copyStamp)
    ensures Basename(Join(inputDir, CopyName(inputPath, copyStamp))) == CopyName(inputPath, copyStamp)
    ensures SplitExt(CopyName(inputPath, copyStamp)).1 == SplitExt(Basename(inputPath)).1
  {
    CopyKeepsExtension(inputPath, copyStamp);
    CopyNameNoSlash(inputPath, copyStamp);
    BasenameJoin(inputDir, CopyName(inputPath, copyStamp));
  }

  lemma CopyNameNoSlash(inputPath: string, copyStamp: string)
    requires NoSlash(copyStamp)
    ensures NoSlash(CopyName(inputPath, copyStamp))
  {
    var parts := SplitExt(Basename(inputPath));
    NoSlashAppend(parts.0, parts.1);
    NoSlashAppend("_", copyStamp);
    NoSlashAppend(parts.0, "_" + copyStamp);
    NoSlashAppend(parts.0 + ("_" + copyStamp), parts.1);
  }
}
