/** The main page (src/pages/HomePage.tsx): the text of the CSV export, and
    the page state that running, saving and choosing queries change. */
module HomePage {
  import opened Wrappers
  import opened Text
  import opened Json
  import QueryExecutor
  import FileUploader

  // =====================================================================
  // Export

  /** The fields of one exported row: `${row[col]}` for each column. */
  function Fields(row: Value, columns: seq<string>): (fields: seq<string>)
    ensures |fields| == |columns|
    ensures forall j :: 0 <= j < |columns| ==> fields[j] == Template(Lookup(row, columns[j]))
  {
    seq(|columns|, j requires 0 <= j < |columns| => Template(Lookup(row, columns[j])))
  }

  /** One exported row: its fields in double quotes, comma-separated. */
  function RowLine(row: Value, columns: seq<string>): string {
    Join(FileUploader.QuoteAll(Fields(row, columns)), ",")
  }

  /** The header line, then one line per row. */
  function ExportLines(results: seq<Value>, columns: seq<string>): (lines: seq<string>)
    ensures |lines| == |results| + 1
    ensures lines[0] == Join(columns, ",")
    ensures forall i :: 0 <= i < |results| ==> lines[i + 1] == RowLine(results[i], columns)
  {
    [Join(columns, ",")] + seq(|results|, i requires 0 <= i < |results| => RowLine(results[i], columns))
  }

  /** The text `exportToCSV` downloads; nothing when there are no results. */
  function ExportContent(results: seq<Value>, columns: seq<string>): (content: Option<string>)
    ensures content.None? <==> results == []
  {
    if |results| == 0 then None else Some(Join(ExportLines(results, columns), "\n"))
  }

  /** A column name the CSV reader gives back unchanged. */
  predicate PlainColumn(c: string) {
    c != "" && ',' !in c && '"' !in c && '\n' !in c && '\r' !in c && Trim(c) == c
  }

  /** A field text the CSV reader gives back unchanged. */
  predicate PlainField(v: string) {
    '"' !in v && '\n' !in v && '\r' !in v
  }

  predicate Exportable(results: seq<Value>, columns: seq<string>) {
    && |columns| >= 1
    && (forall j :: 0 <= j < |columns| ==> PlainColumn(columns[j]))
    && (forall i, j :: 0 <= i < |results| && 0 <= j < |columns| ==> PlainField(Template(Lookup(results[i], columns[j]))))
  }

  /** A quoted field holds no character its value and the quotes do not. */
  lemma QuotedAvoids(values: seq<string>, c: char)
    requires c != '"' && forall v | v in values :: c !in v
    ensures forall q | q in FileUploader.QuoteAll(values) :: c !in q
  {
  }

  /** No line of the export holds a line break. */
  lemma ExportLineUnbroken(results: seq<Value>, columns: seq<string>, k: nat)
    requires Exportable(results, columns) && k <= |results|
    ensures '\n' !in ExportLines(results, columns)[k] && '\r' !in ExportLines(results, columns)[k]
  {
    if k == 0 {
      JoinAvoids(columns, ",", '\n');
      JoinAvoids(columns, ",", '\r');
    } else {
      var fields := Fields(results[k - 1], columns);
      QuotedAvoids(fields, '\n');
      QuotedAvoids(fields, '\r');
      JoinAvoids(FileUploader.QuoteAll(fields), ",", '\n');
      JoinAvoids(FileUploader.QuoteAll(fields), ",", '\r');
    }
  }

  /** The export splits back into its header line and one line per row. */
  lemma ExportSplitsIntoLines(results: seq<Value>, columns: seq<string>)
    requires results != [] && Exportable(results, columns)
    ensures FileUploader.SplitLines(ExportContent(results, columns).value) == ExportLines(results, columns)
  {
    var lines := ExportLines(results, columns);
    forall l | l in lines ensures '\n' !in l && '\r' !in l {
      var k :| 0 <= k < |lines| && lines[k] == l;
      ExportLineUnbroken(results, columns, k);
    }
    FileUploader.SplitJoinedLines(lines);
  }

  /** The header line is not blank: it starts with a column name, which
      does not start with whitespace. */
  lemma HeaderLineNotBlank(columns: seq<string>)
    requires |columns| >= 1 && PlainColumn(columns[0])
    ensures !IsBlank(Join(columns, ","))
  {
    var c := columns[0];
    TrimEmptyIffBlank(c);
    var i :| 0 <= i < |c| && !IsWhitespace(c[i]);
    JoinStartsWith(columns, ",");
    assert Join(columns, ",")[i] == Join(columns, ",")[..|c|][i];
  }

  /** A row line is not blank: it starts with `"`. */
  lemma RowLineNotBlank(row: Value, columns: seq<string>)
    requires |columns| >= 1
    ensures !IsBlank(RowLine(row, columns))
  {
    var quoted := FileUploader.QuoteAll(Fields(row, columns));
    assert quoted[0][0] == '"';
    JoinStartsWith(quoted, ",");
    assert RowLine(row, columns)[0] == Join(quoted, ",")[..|quoted[0]|][0];
  }

  /** No line of the export is blank. */
  lemma ExportLinesNotBlank(results: seq<Value>, columns: seq<string>)
    requires Exportable(results, columns)
    ensures forall l | l in ExportLines(results, columns) :: !IsBlank(l)
  {
    var lines := ExportLines(results, columns);
    forall k | 0 <= k < |lines| ensures !IsBlank(lines[k]) {
      if k == 0 {
        HeaderLineNotBlank(columns);
      } else {
        RowLineNotBlank(results[k - 1], columns);
      }
    }
  }

  /** The lines the CSV reader keeps from an export are all of its lines. */
  lemma ExportNonBlankLines(results: seq<Value>, columns: seq<string>)
    requires results != [] && Exportable(results, columns)
    ensures FileUploader.NonBlank(FileUploader.SplitLines(ExportContent(results, columns).value)) == ExportLines(results, columns)
  {
    ExportSplitsIntoLines(results, columns);
    ExportLinesNotBlank(results, columns);
  }

  /** The rows re-read from an export. */
  function ReadBack(results: seq<Value>, columns: seq<string>): (rows: seq<Value>)
    ensures |rows| == |results|
  {
    seq(|results|, i requires 0 <= i < |results| => Object(FileUploader.RowOf(columns, Fields(results[i], columns))))
  }

  /** Each exported row line gives back that row's fields. */
  lemma ExportDataRows(results: seq<Value>, columns: seq<string>)
    requires Exportable(results, columns)
    ensures FileUploader.RowsOf(columns, ExportLines(results, columns)[1..]) == ReadBack(results, columns)
  {
    var lines := ExportLines(results, columns)[1..];
    var fields := seq(|results|, i requires 0 <= i < |results| => Fields(results[i], columns));
    forall i | 0 <= i < |results| ensures FileUploader.ScanFields(lines[i], false) == fields[i] {
      RowLineFields(results[i], columns);
    }
    FileUploader.RowsOfFields(columns, lines, fields);
  }

  /** A row line reads back as the row's fields. */
  lemma RowLineFields(row: Value, columns: seq<string>)
    requires |columns| >= 1
    requires forall j :: 0 <= j < |columns| ==> PlainField(Template(Lookup(row, columns[j])))
    ensures FileUploader.ScanFields(RowLine(row, columns), false) == Fields(row, columns)
  {
    var fields := Fields(row, columns);
    assert forall v | v in fields :: '"' !in v;
    FileUploader.QuotedLineFields(fields);
  }

  /** Re-reading an export with the CSV reader gives, for every exported row,
      the row made of the text of its cells under the exported columns. */
  lemma ExportRoundTrip(results: seq<Value>, columns: seq<string>)
    requires results != [] && Exportable(results, columns)
    ensures FileUploader.CsvRows(ExportContent(results, columns).value) == Success(ReadBack(results, columns))
  {
    ExportNonBlankLines(results, columns);
    assert forall j :: 0 <= j < |columns| ==> PlainColumn(columns[j]);
    FileUploader.HeadersOfJoin(columns);
    ExportDataRows(results, columns);
  }

  /** With distinct columns, each re-read row has exactly the exported
      columns as keys, in order, each holding the text that was exported. */
  lemma ReadBackRow(row: Value, columns: seq<string>)
    requires forall i, j :: 0 <= i < j < |columns| ==> columns[i] != columns[j]
    ensures Keys(FileUploader.RowOf(columns, Fields(row, columns))) == columns
    ensures forall j :: 0 <= j < |columns| ==>
              Get(FileUploader.RowOf(columns, Fields(row, columns)), columns[j]) == Some(Str(Template(Lookup(row, columns[j]))))
  {
    var values := Fields(row, columns);
    FileUploader.RowOfKeys(columns, values);
    assert columns[..|columns|] == columns;
    forall j | 0 <= j < |columns|
      ensures Get(FileUploader.RowOf(columns, values), columns[j]) == Some(Str(values[j]))
    {
      FileUploader.RowOfLastWins(columns, values, columns[j], j);
    }
  }

  // =====================================================================
  // Page state

  /** A history entry; the time is an abstract clock reading. */
  datatype HistoryEntry = HistoryEntry(query: string, timestamp: int)

  datatype SavedQuery = SavedQuery(query: string, name: string)

  class Page {
    var query: string
    var results: seq<Value>
    var columns: seq<string>
    var isLoading: bool
    var executionTime: Option<int>
    var history: seq<HistoryEntry>
    var savedQueries: seq<SavedQuery>

    /** The columns shown are the keys of the first result row, and there are
        none without results. */
    predicate Valid()
      reads this
    {
      if results == [] then columns == [] else ObjectKeys(results[0]) == Some(columns)
    }

    /** The page opens with the first predefined query in the editor. */
    constructor(initialQuery: string)
      ensures Valid()
      ensures query == initialQuery && results == [] && columns == [] && !isLoading
      ensures executionTime == None && history == [] && savedQueries == []
    {
      query := initialQuery;
      results := [];
      columns := [];
      isLoading := false;
      executionTime := None;
      history := [];
      savedQueries := [];
    }

    /** The start of `runQuery`: a blank query does nothing; otherwise the page
        shows it is loading. Returns whether a run started. */
    method StartRun() returns (started: bool)
      modifies this
      ensures started <==> Trim(old(query)) != ""
      ensures started ==> isLoading
      ensures !started ==> unchanged(this)
      ensures query == old(query) && results == old(results) && columns == old(columns)
      ensures history == old(history) && savedQueries == old(savedQueries) && executionTime == old(executionTime)
    {
      if Trim(query) == "" {
        return false;
      }
      isLoading := true;
      return true;
    }

    /** The end of `runQuery` for the query `ran` it was started with: on
        success the results and columns are replaced and `ran` goes to the
        front of the history; on failure both are emptied and the history is
        kept. Either way loading ends. */
    method FinishRun(ran: string, outcome: Result<QueryExecutor.QueryResult, QueryExecutor.QueryError>, now: int, elapsed: int)
      requires Valid()
      requires outcome.Success? ==> outcome.value.data != [] && ObjectKeys(outcome.value.data[0]) == Some(outcome.value.columns)
      modifies this
      ensures Valid()
      ensures !isLoading
      ensures outcome.Success? ==> results == outcome.value.data && columns == outcome.value.columns
                                   && history == [HistoryEntry(ran, now)] + old(history)
                                   && executionTime == Some(elapsed)
      ensures outcome.Failure? ==> results == [] && columns == [] && history == old(history) && executionTime == None
      ensures query == old(query) && savedQueries == old(savedQueries)
    {
      if outcome.Success? {
        results := outcome.value.data;
        columns := outcome.value.columns;
        history := [HistoryEntry(ran, now)] + history;
        executionTime := Some(elapsed);
      } else {
        results := [];
        columns := [];
        executionTime := None;
      }
      isLoading := false;
    }

    /** `runQuery` from start to end against the mock runner. */
    method RunQuery(datasets: QueryExecutor.Datasets, now: int, elapsed: int)
      requires Valid()
      modifies this
      ensures Valid()
      ensures Trim(old(query)) == "" ==> unchanged(this)
      ensures Trim(old(query)) != "" ==>
                !isLoading
                && match QueryExecutor.Execute(old(query), datasets)
                   case Success(r) => results == r.data && columns == r.columns
                                      && history == [HistoryEntry(old(query), now)] + old(history)
                                      && executionTime == Some(elapsed)
                   case Failure(_) => results == [] && columns == [] && history == old(history)
                                      && executionTime == None
      ensures query == old(query) && savedQueries == old(savedQueries)
    {
      var started := StartRun();
      if !started {
        return;
      }
      var outcome := QueryExecutor.Execute(query, datasets);
      FinishRun(query, outcome, now, elapsed);
    }

    /** `saveCurrentQuery` with the answer to the name prompt (`None` when it
        is cancelled): only a non-empty name saves, at the end of the list. */
    method SaveCurrentQuery(name: Option<string>)
      modifies this
      ensures name.Some? && name.value != "" ==> savedQueries == old(savedQueries) + [SavedQuery(query, name.value)]
      ensures name.None? || name.value == "" ==> savedQueries == old(savedQueries)
      ensures query == old(query) && results == old(results) && columns == old(columns)
      ensures history == old(history) && isLoading == old(isLoading) && executionTime == old(executionTime)
    {
      if name.Some? && name.value != "" {
        savedQueries := savedQueries + [SavedQuery(query, name.value)];
      }
    }

    /** `handleQuerySelect` and the editor's `onChange`: the editor text. */
    method SetQuery(selected: string)
      modifies this
      ensures query == selected
      ensures results == old(results) && columns == old(columns) && history == old(history)
      ensures savedQueries == old(savedQueries) && isLoading == old(isLoading) && executionTime == old(executionTime)
    {
      query := selected;
    }
  }
}
