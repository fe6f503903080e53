/** The upload component (src/components/FileUploader.tsx): it turns the
    text of a chosen `.csv` or `.json` file into rows, or into one of its
    error messages, and keeps the `error`/`loading`/`progress` state the
    upload button shows. */
module FileUploader {
  import opened Wrappers
  import opened Text
  import opened Json
  import opened Arith

  datatype UploadError =
    | UnsupportedFormat
    | ReadFailed
    | FileEmpty
    | NoCsvData
    | NoDataRows
    | JsonSyntax(message: string)
    | NoArrayFound
    | NoJsonData

  /** The text the component puts in its `error` state for each failure. */
  function Message(e: UploadError): string {
    match e
    case UnsupportedFormat => "Unsupported file format. Please upload a JSON or CSV file."
    case ReadFailed => "Failed to read file"
    case FileEmpty => "File is empty"
    case NoCsvData => "No data found in CSV file"
    case NoDataRows => "No data rows found in the file"
    case JsonSyntax(m) => m
    case NoArrayFound => "JSON file must contain an array of objects"
    case NoJsonData => "File contains no data"
  }

  function Min(a: int, b: int): int {
    if a <= b then a else b
  }

  /** Taking one more element of a sequence appends it. */
  lemma TakeOneMore<T>(s: seq<T>, n: nat)
    requires n < |s|
    ensures s[..n + 1] == s[..n] + [s[n]]
  {
  }

  // =====================================================================
  // Lines

  predicate IsLineBreak(c: char) {
    c == '\n' || c == '\r'
  }

  /** `text.split(/\r\n|\n|\r/)`: a `\r` directly followed by `\n` is one break. */
  function SplitLines(text: string): (lines: seq<string>)
    ensures |lines| >= 1
    ensures forall l | l in lines :: '\n' !in l && '\r' !in l
    decreases |text|
  {
    if text == [] then [""]
    else if |text| >= 2 && text[0] == '\r' && text[1] == '\n' then [""] + SplitLines(text[2..])
    else if IsLineBreak(text[0]) then [""] + SplitLines(text[1..])
    else
      var rest := SplitLines(text[1..]);
      [[text[0]] + rest[0]] + rest[1..]
  }

  /** `lines.filter(line => line.trim().length > 0)`, order kept. */
  function NonBlank(lines: seq<string>): (r: seq<string>)
    ensures |r| <= |lines|
    ensures forall l :: l in r <==> l in lines && !IsBlank(l)
    ensures (forall l | l in lines :: !IsBlank(l)) ==> r == lines
  {
    if lines == [] then []
    else
      assert lines == [lines[0]] + lines[1..];
      (if IsBlank(lines[0]) then [] else [lines[0]]) + NonBlank(lines[1..])
  }

  lemma {:induction false} LinesPrefix(p: string, rest: string)
    requires '\n' !in p && '\r' !in p
    ensures SplitLines(p + rest) == [p + SplitLines(rest)[0]] + SplitLines(rest)[1..]
  {
    var r := SplitLines(rest);
    if p == [] {
      assert p + rest == rest;
      assert r == [r[0]] + r[1..];
      assert p + r[0] == r[0];
    } else {
      assert (p + rest)[0] == p[0];
      assert (p + rest)[1..] == p[1..] + rest;
      LinesPrefix(p[1..], rest);
      var tail := SplitLines(p[1..] + rest);
      assert SplitLines(p + rest) == [[p[0]] + tail[0]] + tail[1..];
      assert [p[0]] + (p[1..] + r[0]) == p + r[0];
    }
  }

  /** Splitting lines joined with `\n` gives the lines back. */
  lemma {:induction false} SplitJoinedLines(lines: seq<string>)
    requires |lines| >= 1
    requires forall l | l in lines :: '\n' !in l && '\r' !in l
    ensures SplitLines(Join(lines, "\n")) == lines
  {
    if |lines| == 1 {
      LinesPrefix(lines[0], "");
      assert lines[0] + "" == lines[0];
    } else {
      var tail := Join(lines[1..], "\n");
      assert Join(lines, "\n") == lines[0] + ("\n" + tail);
      assert forall l | l in lines[1..] :: '\n' !in l && '\r' !in l;
      SplitJoinedLines(lines[1..]);
      LinesPrefix(lines[0], "\n" + tail);
      assert ("\n" + tail)[1..] == tail;
      var after := SplitLines("\n" + tail);
      assert after == [""] + lines[1..];
      assert lines[0] + "" == lines[0];
      assert lines == [lines[0]] + lines[1..];
    }
  }

  /** Every character that is not a line break ends up on some line. */
  lemma {:induction false} CharOnSomeLine(text: string, i: nat)
    requires i < |text| && !IsLineBreak(text[i])
    ensures exists l :: l in SplitLines(text) && text[i] in l
    decreases |text|
  {
    var lines := SplitLines(text);
    if |text| >= 2 && text[0] == '\r' && text[1] == '\n' {
      CharOnSomeLine(text[2..], i - 2);
      var l :| l in SplitLines(text[2..]) && text[2..][i - 2] in l;
      assert l in lines;
    } else if IsLineBreak(text[0]) {
      CharOnSomeLine(text[1..], i - 1);
      var l :| l in SplitLines(text[1..]) && text[1..][i - 1] in l;
      assert l in lines;
    } else {
      var rest := SplitLines(text[1..]);
      if i == 0 {
        assert text[0] in lines[0];
      } else {
        CharOnSomeLine(text[1..], i - 1);
        var l :| l in rest && text[1..][i - 1] in l;
        if l == rest[0] {
          assert text[i] in lines[0];
        } else {
          assert l in rest[1..];
          assert l in lines;
        }
      }
    }
  }

  /** Text with a non-whitespace character has a non-blank line. */
  lemma NotBlankHasLine(text: string)
    requires !IsBlank(text)
    ensures NonBlank(SplitLines(text)) != []
  {
    var i :| 0 <= i < |text| && !IsWhitespace(text[i]);
    CharOnSomeLine(text, i);
    var l :| l in SplitLines(text) && text[i] in l;
    assert !IsBlank(l);
    assert l in NonBlank(SplitLines(text));
  }

  // =====================================================================
  // Header line

  /** `s.replace(/^"|"$/g, "")`: drops one leading and one trailing `"`. */
  function StripQuotes(s: string): (r: string)
    ensures |s| - 2 <= |r| <= |s|
    ensures var a := if s != [] && s[0] == '"' then 1 else 0;
            var b := if |s| - a > 0 && s[|s| - 1] == '"' then 1 else 0;
            r == s[a..|s| - b]
    ensures (s == [] || (s[0] != '"' && s[|s| - 1] != '"')) ==> r == s
    ensures '"' !in s ==> r == s
  {
    var t := if s != [] && s[0] == '"' then s[1..] else s;
    if t != [] && t[|t| - 1] == '"' then t[..|t| - 1] else t
  }

  /** `line.split(",").map(h => h.trim().replace(/^"|"$/g, ""))`: commas
      split the header whatever the quotes, so there is always a header. */
  function Headers(line: string): (headers: seq<string>)
    ensures |headers| == multiset(line)[','] + 1
    ensures var cells := SplitOn(line, ',');
            |headers| == |cells| && forall i :: 0 <= i < |cells| ==> headers[i] == StripQuotes(Trim(cells[i]))
  {
    SplitCount(line, ',');
    HeaderNames(SplitOn(line, ','))
  }

  /** Each header cell trimmed, then unquoted. */
  function HeaderNames(cells: seq<string>): (names: seq<string>)
    ensures |names| == |cells|
    ensures forall i :: 0 <= i < |cells| ==> names[i] == StripQuotes(Trim(cells[i]))
  {
    if cells == [] then [] else [StripQuotes(Trim(cells[0]))] + HeaderNames(cells[1..])
  }

  /** Headers that need no trimming or unquoting come back as written. */
  lemma HeadersOfJoin(columns: seq<string>)
    requires |columns| >= 1
    requires forall i :: 0 <= i < |columns| ==> ',' !in columns[i] && '"' !in columns[i] && Trim(columns[i]) == columns[i]
    ensures Headers(Join(columns, ",")) == columns
  {
    SplitJoin(columns, ',');
    CleanNamesUnchanged(columns);
  }

  lemma {:induction false} CleanNamesUnchanged(columns: seq<string>)
    requires forall i :: 0 <= i < |columns| ==> '"' !in columns[i] && Trim(columns[i]) == columns[i]
    ensures HeaderNames(columns) == columns
  {
    if columns != [] {
      CleanNamesUnchanged(columns[1..]);
      assert columns == [columns[0]] + columns[1..];
    }
  }

  // =====================================================================
  // Data lines

  /** The fields of a data line, reading from a position where quote mode is
      `inQuotes`: a `"` toggles quote mode and is dropped, a comma outside
      quotes ends a field, every other character joins the current field. */
  function ScanFields(s: string, inQuotes: bool): (fields: seq<string>)
    ensures |fields| >= 1
  {
    if s == [] then [""]
    else if s[0] == '"' then ScanFields(s[1..], !inQuotes)
    else if s[0] == ',' && !inQuotes then [""] + ScanFields(s[1..], inQuotes)
    else
      var rest := ScanFields(s[1..], inQuotes);
      [[s[0]] + rest[0]] + rest[1..]
  }

  /** No field keeps a `"`. */
  lemma {:induction false} FieldsUnquoted(s: string, inQuotes: bool)
    ensures forall f | f in ScanFields(s, inQuotes) :: '"' !in f
  {
    if s != [] {
      var next := if s[0] == '"' then !inQuotes else inQuotes;
      FieldsUnquoted(s[1..], next);
      var rest := ScanFields(s[1..], inQuotes);
      if s[0] != '"' && !(s[0] == ',' && !inQuotes) {
        assert forall f | f in rest[1..] :: f in rest;
      }
    }
  }

  /** The commas that are outside quotes, counting from quote mode `inQuotes`. */
  function CommasOutside(s: string, inQuotes: bool): nat {
    if s == [] then 0
    else (if s[0] == ',' && !inQuotes then 1 else 0)
         + CommasOutside(s[1..], if s[0] == '"' then !inQuotes else inQuotes)
  }

  /** A data line has one field more than it has commas outside quotes. */
  lemma {:induction false} FieldCount(s: string, inQuotes: bool)
    ensures |ScanFields(s, inQuotes)| == CommasOutside(s, inQuotes) + 1
  {
    if s != [] {
      FieldCount(s[1..], if s[0] == '"' then !inQuotes else inQuotes);
    }
  }

  /** Nothing but the quotes is lost: the fields joined with commas are the
      line without its `"` characters. */
  lemma {:induction false} FieldsJoinBack(s: string, inQuotes: bool)
    ensures Join(ScanFields(s, inQuotes), ",") == Without(s, '"')
  {
    if s != [] {
      FieldsJoinBack(s[1..], if s[0] == '"' then !inQuotes else inQuotes);
      var rest := ScanFields(s[1..], inQuotes);
      if s[0] == '"' {
      } else if s[0] == ',' && !inQuotes {
        assert ([""] + rest)[1..] == rest;
        assert Join([""] + rest, ",") == "" + "," + Join(rest, ",");
      } else {
        assert rest == [rest[0]] + rest[1..];
        JoinCons([s[0]], rest[0], rest[1..], ",");
      }
    }
  }

  /** A line without quotes is split at every comma. */
  lemma {:induction false} UnquotedFields(s: string)
    requires '"' !in s
    ensures ScanFields(s, false) == SplitOn(s, ',')
  {
    if s != [] {
      UnquotedFields(s[1..]);
    }
  }

  /** A comma inside quotes stays in its field: `a,"b,c",d` has three fields. */
  lemma QuotedCommaKept()
    ensures ScanFields("a,\"b,c\",d", false) == ["a", "b,c", "d"]
  {
    var tail := ",d";
    assert tail[1..] == "d" && "d"[1..] == "";
    assert ScanFields("d", false) == ["d"] by {
      assert ['d'] + "" == "d";
    }
    assert ScanFields(tail, false) == ["", "d"];
    QuotedField("b,c", tail);
    assert "b,c" + "" == "b,c";
    var quoted := Quote("b,c") + tail;
    assert ScanFields(quoted, false) == ["b,c", "d"];
    var line := "a," + quoted;
    assert line == "a,\"b,c\",d";
    assert line[1..] == "," + quoted && ("," + quoted)[1..] == quoted;
    assert ['a'] + "" == "a";
  }

  /** Inside quotes every character but `"` joins the current field. */
  lemma {:induction false} QuotedPrefix(v: string, rest: string)
    requires '"' !in v
    ensures ScanFields(v + rest, true) == [v + ScanFields(rest, true)[0]] + ScanFields(rest, true)[1..]
  {
    var r := ScanFields(rest, true);
    if v == [] {
      assert v + rest == rest;
      assert r == [r[0]] + r[1..];
      assert v + r[0] == r[0];
    } else {
      assert (v + rest)[0] == v[0];
      assert (v + rest)[1..] == v[1..] + rest;
      QuotedPrefix(v[1..], rest);
      var tail := ScanFields(v[1..] + rest, true);
      assert ScanFields(v + rest, true) == [[v[0]] + tail[0]] + tail[1..];
      assert [v[0]] + (v[1..] + r[0]) == v + r[0];
    }
  }

  /** `"value"` as the export writes each field. */
  function Quote(v: string): string {
    "\"" + v + "\""
  }

  function QuoteAll(values: seq<string>): (r: seq<string>)
    ensures |r| == |values|
    ensures forall i :: 0 <= i < |values| ==> r[i] == Quote(values[i])
  {
    seq(|values|, i requires 0 <= i < |values| => Quote(values[i]))
  }

  /** A quoted field at the front of a line becomes the front of the first field. */
  lemma QuotedField(v: string, after: string)
    requires '"' !in v
    ensures ScanFields(Quote(v) + after, false)
            == [v + ScanFields(after, false)[0]] + ScanFields(after, false)[1..]
  {
    var s := Quote(v) + after;
    assert s[0] == '"' && s[1..] == v + ("\"" + after);
    QuotedPrefix(v, "\"" + after);
    assert ("\"" + after)[1..] == after;
  }

  /** A line of double-quoted fields gives its fields back, commas included. */
  lemma {:induction false} QuotedLineFields(values: seq<string>)
    requires |values| >= 1
    requires forall v | v in values :: '"' !in v
    ensures ScanFields(Join(QuoteAll(values), ","), false) == values
  {
    var v := values[0];
    if |values| == 1 {
      QuotedField(v, "");
      assert Quote(v) + "" == Quote(v) && v + "" == v;
    } else {
      var tail := Join(QuoteAll(values[1..]), ",");
      assert QuoteAll(values)[1..] == QuoteAll(values[1..]);
      assert Join(QuoteAll(values), ",") == Quote(v) + ("," + tail);
      QuotedField(v, "," + tail);
      assert ("," + tail)[1..] == tail;
      assert forall w | w in values[1..] :: '"' !in w;
      QuotedLineFields(values[1..]);
      assert ScanFields("," + tail, false) == [""] + values[1..];
      assert v + "" == v;
      assert values == [values[0]] + values[1..];
    }
  }

  /** The fields gathered so far, the field being built, and the fields of the
      rest of the line make up the fields of the whole line. */
  function Resume(done: seq<string>, current: string, rest: seq<string>): seq<string>
    requires |rest| >= 1
  {
    done + [current + rest[0]] + rest[1..]
  }

  /** A comma outside quotes closes the field being built. */
  lemma ResumeComma(done: seq<string>, current: string, rest: seq<string>)
    requires |rest| >= 1
    ensures Resume(done, current, [""] + rest) == Resume(done + [current], "", rest)
  {
    assert ([""] + rest)[1..] == rest;
    assert current + "" == current && "" + rest[0] == rest[0];
    assert rest == [rest[0]] + rest[1..];
  }

  /** Any other character joins the field being built. */
  lemma ResumeChar(done: seq<string>, current: string, c: char, rest: seq<string>)
    requires |rest| >= 1
    ensures Resume(done, current, [[c] + rest[0]] + rest[1..]) == Resume(done, current + [c], rest)
  {
    assert current + ([c] + rest[0]) == (current + [c]) + rest[0];
  }

  /** The fields of a line, one character taken off its front. */
  lemma ScanOne(line: string, i: nat, inQuotes: bool)
    requires i < |line|
    ensures ScanFields(line[i..], inQuotes)
            == if line[i] == '"' then ScanFields(line[i + 1..], !inQuotes)
               else if line[i] == ',' && !inQuotes then [""] + ScanFields(line[i + 1..], inQuotes)
               else [[line[i]] + ScanFields(line[i + 1..], inQuotes)[0]] + ScanFields(line[i + 1..], inQuotes)[1..]
  {
    assert line[i..][1..] == line[i + 1..];
  }

  /** The character loop of `parseCSV` for one data line. */
  method TokenizeLine(line: string) returns (values: seq<string>)
    ensures values == ScanFields(line, false)
  {
    values := [];
    var current := "";
    var inQuotes := false;
    ghost var all := ScanFields(line, false);
    assert line[0..] == line;
    assert all == [all[0]] + all[1..] && "" + all[0] == all[0];
    for i := 0 to |line|
      invariant '"' !in current
      invariant Resume(values, current, ScanFields(line[i..], inQuotes)) == all
    {
      var c := line[i];
      ScanOne(line, i, inQuotes);
      if c == '"' {
        inQuotes := !inQuotes;
      } else if c == ',' && !inQuotes {
        ResumeComma(values, current, ScanFields(line[i + 1..], inQuotes));
        values := values + [StripQuotes(current)];
        current := "";
      } else {
        ResumeChar(values, current, c, ScanFields(line[i + 1..], inQuotes));
        current := current + [c];
      }
    }
    assert line[|line|..] == [];
    assert current + "" == current;
    values := values + [StripQuotes(current)];
  }

  // =====================================================================
  // Rows

  /** The object `headers.forEach((h, i) => { if (i < values.length) row[h] = values[i] })` builds. */
  function RowOf(headers: seq<string>, values: seq<string>): Props
    decreases |headers|
  {
    if headers == [] then []
    else
      var n := |headers| - 1;
      var before := RowOf(headers[..n], values);
      if n < |values| then Set(before, headers[n], Str(values[n])) else before
  }

  lemma AbsentAfterSet(before: Props, key: string, v: Value, k: string, given: seq<string>)
    requires Get(before, k).None? <==> k !in given
    ensures Get(Set(before, key, v), k).None? <==> k !in given + [key]
  {
    GetAfterSet(before, key, v, k);
  }

  /** A header is a key of the row exactly when it is among the first
      `min(#headers, #values)` headers. */
  lemma {:induction false} RowOfAbsent(headers: seq<string>, values: seq<string>, k: string)
    ensures Get(RowOf(headers, values), k).None? <==> k !in headers[..Min(|headers|, |values|)]
    decreases |headers|
  {
    if headers != [] {
      var n := |headers| - 1;
      var before := RowOf(headers[..n], values);
      RowOfAbsent(headers[..n], values, k);
      if n < |values| {
        assert Min(n, |values|) == n && Min(|headers|, |values|) == n + 1;
        assert headers[..n][..n] == headers[..n];
        assert RowOf(headers, values) == Set(before, headers[n], Str(values[n]));
        AbsentAfterSet(before, headers[n], Str(values[n]), k, headers[..n]);
        TakeOneMore(headers, n);
      } else {
        var m := |values|;
        assert Min(n, |values|) == m && Min(|headers|, |values|) == m;
        assert RowOf(headers, values) == before;
        assert headers[..n][..m] == headers[..m];
      }
    }
  }

  /** With repeated headers the last one with a value wins. */
  lemma {:induction false} RowOfLastWins(headers: seq<string>, values: seq<string>, k: string, j: nat)
    requires j < |headers| && j < |values| && headers[j] == k
    requires forall j' :: j < j' < |headers| && j' < |values| ==> headers[j'] != k
    ensures Get(RowOf(headers, values), k) == Some(Str(values[j]))
    decreases |headers|
  {
    var n := |headers| - 1;
    var before := RowOf(headers[..n], values);
    if n < |values| {
      assert RowOf(headers, values) == Set(before, headers[n], Str(values[n]));
      GetAfterSet(before, headers[n], Str(values[n]), k);
      if j < n {
        assert headers[n] != k;
        assert headers[..n][j] == k;
        assert forall j' :: j < j' < n && j' < |values| ==> headers[..n][j'] != k;
        RowOfLastWins(headers[..n], values, k, j);
      }
    } else {
      assert RowOf(headers, values) == before;
      assert j < n;
      assert headers[..n][j] == k;
      assert forall j' :: j < j' < n && j' < |values| ==> headers[..n][j'] != k;
      RowOfLastWins(headers[..n], values, k, j);
    }
  }

  /** With distinct headers the keys are the first `min(#headers, #values)`
      headers, in header order. */
  lemma {:induction false} RowOfKeys(headers: seq<string>, values: seq<string>)
    requires forall i, j :: 0 <= i < j < |headers| ==> headers[i] != headers[j]
    ensures Keys(RowOf(headers, values)) == headers[..Min(|headers|, |values|)]
    decreases |headers|
  {
    if headers != [] {
      var n := |headers| - 1;
      var before := RowOf(headers[..n], values);
      RowOfKeys(headers[..n], values);
      if n < |values| {
        assert Min(n, |values|) == n && Min(|headers|, |values|) == n + 1;
        assert headers[..n][..n] == headers[..n];
        assert RowOf(headers, values) == Set(before, headers[n], Str(values[n]));
        SetKeys(before, headers[n], Str(values[n]));
        assert headers[n] !in headers[..n];
        TakeOneMore(headers, n);
      } else {
        var m := |values|;
        assert Min(n, |values|) == m && Min(|headers|, |values|) == m;
        assert RowOf(headers, values) == before;
        assert headers[..n][..m] == headers[..m];
      }
    }
  }

  /** The row as a method, in the order of the `forEach`. */
  method BuildRow(headers: seq<string>, values: seq<string>) returns (row: Props)
    ensures row == RowOf(headers, values)
  {
    row := [];
    for index := 0 to |headers|
      invariant row == RowOf(headers[..index], values)
    {
      assert headers[..index + 1][..index] == headers[..index];
      if index < |values| {
        row := Set(row, headers[index], Str(values[index]));
      }
    }
    assert headers[..|headers|] == headers;
  }

  // =====================================================================
  // parseCSV

  /** One row per data line, in line order. */
  function RowsOf(headers: seq<string>, dataLines: seq<string>): (rows: seq<Value>)
    ensures |rows| == |dataLines|
  {
    if dataLines == [] then []
    else
      var n := |dataLines| - 1;
      RowsOf(headers, dataLines[..n]) + [Object(RowOf(headers, ScanFields(dataLines[n], false)))]
  }

  /** Data lines whose fields are known give rows of those fields. */
  lemma {:induction false} RowsOfFields(headers: seq<string>, lines: seq<string>, fields: seq<seq<string>>)
    requires |lines| == |fields|
    requires forall i :: 0 <= i < |lines| ==> ScanFields(lines[i], false) == fields[i]
    ensures RowsOf(headers, lines) == seq(|lines|, i requires 0 <= i < |lines| => Object(RowOf(headers, fields[i])))
  {
    if lines != [] {
      var n := |lines| - 1;
      RowsOfFields(headers, lines[..n], fields[..n]);
    }
  }

  /** What `parseCSV` returns for a text: the first non-blank line names the
      columns, every later non-blank line becomes one row. */
  function CsvRows(text: string): Result<seq<Value>, UploadError> {
    var lines := NonBlank(SplitLines(text));
    if lines == [] then Failure(NoCsvData)
    else Success(RowsOf(Headers(lines[0]), lines[1..]))
  }

  /** `parseCSV`: the header line, then the loop over the data lines. */
  method ParseCsv(text: string) returns (r: Result<seq<Value>, UploadError>)
    ensures r == CsvRows(text)
  {
    var lines := NonBlank(SplitLines(text));
    if |lines| == 0 {
      return Failure(NoCsvData);
    }
    var headers := Headers(lines[0]);
    var result := ReadRows(headers, lines[1..]);
    return Success(result);
  }

  /** The loop of `parseCSV`: one row per data line, pushed in order. */
  method ReadRows(headers: seq<string>, dataLines: seq<string>) returns (result: seq<Value>)
    ensures result == RowsOf(headers, dataLines)
  {
    result := [];
    for i := 0 to |dataLines|
      invariant result == RowsOf(headers, dataLines[..i])
    {
      var values := TokenizeLine(dataLines[i]);
      var row := BuildRow(headers, values);
      assert dataLines[..i + 1][..i] == dataLines[..i];
      result := result + [Object(row)];
    }
    assert dataLines[..|dataLines|] == dataLines;
  }

  /** The reading of a `.csv` file, FileReader aside. */
  function CsvUpload(content: string): Result<seq<Value>, UploadError> {
    if content == "" then Failure(ReadFailed)
    else if Trim(content) == "" then Failure(FileEmpty)
    else
      match CsvRows(content)
      case Failure(e) => Failure(e)
      case Success(rows) => if |rows| == 0 then Failure(NoDataRows) else Success(rows)
  }

  /** `handleLargeCsvFile`'s `onload` handler on the text read. */
  method LoadCsv(content: string) returns (r: Result<seq<Value>, UploadError>)
    ensures r == CsvUpload(content)
  {
    if content == "" {
      return Failure(ReadFailed);
    }
    if Trim(content) == "" {
      return Failure(FileEmpty);
    }
    var data := ParseCsv(content);
    if data.Failure? {
      return data;
    }
    if |data.value| == 0 {
      return Failure(NoDataRows);
    }
    return data;
  }

  /** Which error a `.csv` file's text meets: an empty read fails first, then
      whitespace-only text; "No data found in CSV file" is never reached, since
      text that is not blank has a non-blank line; a header alone has no rows. */
  lemma CsvUploadOutcome(content: string)
    ensures CsvUpload(content) == Failure(ReadFailed) <==> content == ""
    ensures CsvUpload(content) == Failure(FileEmpty) <==> content != "" && IsBlank(content)
    ensures CsvUpload(content) != Failure(NoCsvData)
    ensures CsvUpload(content) == Failure(NoDataRows)
            <==> !IsBlank(content) && |NonBlank(SplitLines(content))| == 1
    ensures CsvUpload(content).Success?
            ==> |CsvUpload(content).value| == |NonBlank(SplitLines(content))| - 1 >= 1
  {
    TrimEmptyIffBlank(content);
    if !IsBlank(content) {
      NotBlankHasLine(content);
    }
  }

  // =====================================================================
  // JSON files: choosing the rows

  /** `Array.isArray(obj[key])` */
  predicate IsArrayAt(props: Props, key: string) {
    Get(props, key).Some? && Get(props, key).value.Array?
  }

  /** `keys.find(key => Array.isArray(obj[key]))`, as the position found. */
  function FirstArrayKey(props: Props, keys: seq<string>): (r: Option<nat>)
    ensures r.Some? ==> r.value < |keys| && IsArrayAt(props, keys[r.value])
    ensures r.Some? ==> forall j :: 0 <= j < r.value ==> !IsArrayAt(props, keys[j])
    ensures r.None? <==> forall j :: 0 <= j < |keys| ==> !IsArrayAt(props, keys[j])
  {
    if keys == [] then None
    else if IsArrayAt(props, keys[0]) then Some(0)
    else
      match FirstArrayKey(props, keys[1..])
      case None => None
      case Some(i) => Some(i + 1)
  }

  /** `Object.keys(obj).find(key => Array.isArray(obj[key]))`: the first key,
      in key order, whose value is an array. */
  function ArrayProp(props: Props): (r: Option<string>)
    ensures r.Some? ==> IsArrayAt(props, r.value)
    ensures r.Some? ==> exists i :: 0 <= i < |props| && props[i].0 == r.value
                          && forall j :: 0 <= j < i ==> !IsArrayAt(props, props[j].0)
    ensures r.None? <==> forall k | k in Keys(props) :: !IsArrayAt(props, k)
  {
    var keys := Keys(props);
    match FirstArrayKey(props, keys)
    case None => None
    case Some(i) => Some(keys[i])
  }

  /** `if (data.length === 0) throw ...` */
  function NonEmptyRows(items: seq<Value>): (r: Result<seq<Value>, UploadError>)
    ensures r.Success? <==> items != []
    ensures r.Success? ==> r.value == items
    ensures r.Failure? ==> r.error == NoJsonData
  {
    if |items| == 0 then Failure(NoJsonData) else Success(items)
  }

  /** The rows `handleLargeJsonFile` takes from the parsed value, as written:
      the key found is tested for truthiness, so an array under the key `""`
      is not taken. */
  function SelectRowsAsWritten(root: Value): Result<seq<Value>, UploadError> {
    if root.Array? then NonEmptyRows(root.items)
    else if root.Object? then
      match ArrayProp(root.props)
      case None => Failure(NoArrayFound)
      case Some(key) =>
        if key == "" then Failure(NoArrayFound)
        else NonEmptyRows(Get(root.props, key).value.items)
    else Failure(NoArrayFound)
  }

  /** The rows taken from the parsed value: the root array itself, or else
      the first property of the root object, in key order, that holds an
      array. */
  function SelectRows(root: Value): (r: Result<seq<Value>, UploadError>)
    ensures r.Success? ==> r.value != []
    ensures root.Array? ==> r == NonEmptyRows(root.items)
    ensures r == Failure(NoArrayFound)
            <==> !root.Array? && (!root.Object? || ArrayProp(root.props).None?)
    ensures root.Object? && r.Success? ==>
              ArrayProp(root.props).Some? && r.value == Get(root.props, ArrayProp(root.props).value).value.items
  {
    if root.Array? then NonEmptyRows(root.items)
    else if root.Object? then
      match ArrayProp(root.props)
      case None => Failure(NoArrayFound)
      case Some(key) => NonEmptyRows(Get(root.props, key).value.items)
    else Failure(NoArrayFound)
  }

  /** The code as written agrees with the intended selection except when the
      first array property of the root object is named `""`: then it reports
      that there is no array. */
  lemma SelectRowsDiffer(root: Value)
    ensures !(root.Object? && ArrayProp(root.props) == Some("")) ==> SelectRowsAsWritten(root) == SelectRows(root)
    ensures root.Object? && ArrayProp(root.props) == Some("") ==> SelectRowsAsWritten(root) == Failure(NoArrayFound)
  {
    if root.Object? {
      match ArrayProp(root.props)
      case None =>
      case Some(key) =>
        if key != "" {
          assert SelectRowsAsWritten(root) == NonEmptyRows(Get(root.props, key).value.items);
        }
    }
  }

  /** `{"": [{"x": 1}]}` is turned away as if it held no array. */
  lemma EmptyKeyRejected()
    ensures SelectRowsAsWritten(Object([("", Array([Object([("x", Number("1"))])]))])) == Failure(NoArrayFound)
    ensures SelectRows(Object([("", Array([Object([("x", Number("1"))])]))])) == Success([Object([("x", Number("1"))])])
  {
    var props := [("", Array([Object([("x", Number("1"))])]))];
    assert Keys(props) == [""];
    assert IsArrayAt(props, "");
  }

  /** What a `.json` file's text turns into, given what `JSON.parse` makes of
      it (a value, or the message of the `SyntaxError` it throws). */
  function JsonUpload(parsed: Result<Value, string>): (r: Result<seq<Value>, UploadError>)
    ensures parsed.Failure? ==> r == Failure(JsonSyntax(parsed.error))
    ensures parsed.Success? ==> r == SelectRows(parsed.value)
  {
    match parsed
    case Failure(m) => Failure(JsonSyntax(m))
    case Success(v) => SelectRows(v)
  }

  // =====================================================================
  // JSON files: the chunked read

  /** The size of each `File.slice` read. */
  const ChunkSize: nat := 20 * 1024 * 1024

  /** `Math.min(100, Math.round((offset / size) * 100))` in exact arithmetic.
      An empty file (size 0) is taken as fully read, 100: the program never
      computes this value, and in JavaScript `0 / 0` would give `NaN`. */
  function Progress(offset: nat, size: nat): (p: int)
    ensures 0 <= p <= 100
    ensures offset >= size ==> p == 100
  {
    if size == 0 then 100
    else
      var p := Min(100, Quotient(200 * offset + size, 2 * size));
      if offset >= size then QuotientAtLeast(200 * offset + size, 2 * size, 100); p else p
  }

  /** For a non-empty file the value is `offset / size` as a percentage,
      rounded half up as `Math.round` does (the floor of `100 * offset / size
      + 1/2`), and capped at 100. */
  lemma ProgressRounds(offset: nat, size: nat)
    requires size > 0
    ensures Progress(offset, size) == Min(100, (200 * offset + size) / (2 * size))
    ensures Progress(offset, size) * 2 * size <= 200 * offset + size
  {
    QuotientIsDiv(200 * offset + size, 2 * size);
    var q := (200 * offset + size) / (2 * size);
    assert 200 * offset + size == (2 * size) * q + (200 * offset + size) % (2 * size);
    if q <= 100 {
      assert Progress(offset, size) * 2 * size == (2 * size) * q;
    } else {
      MulMono(2 * size, 100, q);
    }
  }

  /** The progress shown never goes back as the offset grows. */
  lemma ProgressMonotone(offset: nat, offset': nat, size: nat)
    requires offset <= offset'
    ensures Progress(offset, size) <= Progress(offset', size)
  {
    if size > 0 {
      QuotientMonotone(200 * offset + size, 200 * offset' + size, 2 * size);
    }
  }

  /** The progress values set by the reads from `offset` on: each read
      advances the offset by one chunk, and reading stops once the offset
      reaches the size. */
  function ProgressFrom(offset: nat, size: nat, chunkSize: nat): (steps: seq<int>)
    requires chunkSize > 0
    ensures |steps| >= 1
    decreases size - offset
  {
    var next := offset + chunkSize;
    [Progress(next, size)] + (if next < size then ProgressFrom(next, size, chunkSize) else [])
  }

  /** The progress values run from above the starting offset's up to exactly
      100, never decreasing. */
  lemma {:induction false} ProgressFromShape(offset: nat, size: nat, chunkSize: nat)
    requires chunkSize > 0
    ensures forall i, j :: 0 <= i <= j < |ProgressFrom(offset, size, chunkSize)|
              ==> ProgressFrom(offset, size, chunkSize)[i] <= ProgressFrom(offset, size, chunkSize)[j]
    ensures ProgressFrom(offset, size, chunkSize)[|ProgressFrom(offset, size, chunkSize)| - 1] == 100
    ensures Progress(offset + chunkSize, size) == ProgressFrom(offset, size, chunkSize)[0]
    decreases size - offset
  {
    var next := offset + chunkSize;
    if next < size {
      ProgressFromShape(next, size, chunkSize);
      var tail := ProgressFrom(next, size, chunkSize);
      ProgressMonotone(next, next + chunkSize, size);
      assert forall j :: 0 <= j < |tail| ==> tail[0] <= tail[j];
    }
  }

  /** How `handleLargeJsonFile` reads, as written: the `onload` handler only
      acts on a non-empty chunk, so the text of an empty file is never parsed
      and the upload never finishes (`None`). */
  method ReadJsonChunksAsWritten(content: string, chunkSize: nat) returns (text: Option<string>, progress: seq<int>)
    requires chunkSize > 0
    ensures text.None? <==> content == []
    ensures text.Some? ==> text.value == content && progress == ProgressFrom(0, |content|, chunkSize)
    ensures text.None? ==> progress == []
  {
    var offset: nat := 0;
    var fileContent := "";
    progress := [];
    var reading, stalled := true, false;
    while reading
      invariant reading ==> offset <= |content| && (offset == 0 || offset < |content|)
      invariant reading ==> fileContent == content[..offset]
      invariant reading ==> progress + ProgressFrom(offset, |content|, chunkSize) == ProgressFrom(0, |content|, chunkSize)
      invariant !reading && !stalled ==> fileContent == content && progress == ProgressFrom(0, |content|, chunkSize)
      invariant stalled ==> !reading && content == [] && progress == []
      invariant content == [] ==> offset == 0 && (reading || stalled)
      decreases if reading then |content| + 1 - offset else 0
    {
      var chunk := content[offset..Min(offset + chunkSize, |content|)];
      if chunk == [] {
        assert |content| == 0;
        reading, stalled := false, true;
      } else {
        fileContent := fileContent + chunk;
        var next := offset + chunkSize;
        ReadStep(content, offset, chunkSize);
        ProgressFromUnfold(offset, |content|, chunkSize);
        AppendStep(progress, Progress(next, |content|),
                   if next < |content| then ProgressFrom(next, |content|, chunkSize) else [],
                   ProgressFrom(0, |content|, chunkSize));
        offset := next;
        progress := progress + [Progress(offset, |content|)];
        reading := offset < |content|;
      }
    }
    text := if stalled then None else Some(fileContent);
  }

  /** One read: the text so far grows by the chunk. */
  lemma ReadStep(content: string, offset: nat, chunkSize: nat)
    requires chunkSize > 0 && offset <= |content|
    ensures content[..offset] + content[offset..Min(offset + chunkSize, |content|)] == content[..Min(offset + chunkSize, |content|)]
    ensures offset + chunkSize >= |content| ==> content[..Min(offset + chunkSize, |content|)] == content
  {
  }

  /** Moving the first value still to come to the end of those set so far
      keeps them all. */
  lemma AppendStep(done: seq<int>, x: int, rest: seq<int>, all: seq<int>)
    requires done + ([x] + rest) == all
    ensures (done + [x]) + rest == all
    ensures rest == [] ==> done + [x] == all
  {
    assert (done + [x]) + rest == done + ([x] + rest);
  }

  /** The first progress value of a read sequence, then the rest. */
  lemma ProgressFromUnfold(offset: nat, size: nat, chunkSize: nat)
    requires chunkSize > 0
    ensures ProgressFrom(offset, size, chunkSize)
            == [Progress(offset + chunkSize, size)]
               + (if offset + chunkSize < size then ProgressFrom(offset + chunkSize, size, chunkSize) else [])
  {
  }

  /** The chunked read with every read completing: the text of an empty file
      is handed to the parser too. */
  method ReadJsonChunks(content: string, chunkSize: nat) returns (text: string, progress: seq<int>)
    requires chunkSize > 0
    ensures text == content
    ensures progress == ProgressFrom(0, |content|, chunkSize)
  {
    var offset: nat := 0;
    text := "";
    progress := [];
    var reading := true;
    while reading
      invariant reading ==> offset <= |content| && (offset == 0 || offset < |content|)
      invariant reading ==> text == content[..offset]
      invariant reading ==> progress + ProgressFrom(offset, |content|, chunkSize) == ProgressFrom(0, |content|, chunkSize)
      invariant !reading ==> text == content && progress == ProgressFrom(0, |content|, chunkSize)
      decreases if reading then |content| + 1 - offset else 0
    {
      var chunk := content[offset..Min(offset + chunkSize, |content|)];
      text := text + chunk;
      var next := offset + chunkSize;
      ReadStep(content, offset, chunkSize);
      ProgressFromUnfold(offset, |content|, chunkSize);
      AppendStep(progress, Progress(next, |content|),
                 if next < |content| then ProgressFrom(next, |content|, chunkSize) else [],
                 ProgressFrom(0, |content|, chunkSize));
      offset := next;
      progress := progress + [Progress(offset, |content|)];
      reading := offset < |content|;
    }
  }

  // =====================================================================
  // Choosing the reader, and the component's state

  datatype Format = JsonFile | CsvFile | Unsupported

  /** The dispatch on the file name: `.json` first, then `.csv`, case-sensitive. */
  function Route(name: string): (f: Format)
    ensures f == JsonFile <==> EndsWith(name, ".json")
    ensures f == CsvFile <==> EndsWith(name, ".csv")
    ensures f == Unsupported <==> !EndsWith(name, ".json") && !EndsWith(name, ".csv")
  {
    if EndsWith(name, ".json") then
      assert name[|name| - 4] == 'j';
      JsonFile
    else if EndsWith(name, ".csv") then CsvFile
    else Unsupported
  }

  /** An upper-case extension is not recognised. */
  lemma UpperCaseExtension()
    ensures Route("DATA.CSV") == Unsupported
  {
    assert "DATA.CSV"[4..] == ".CSV";
    assert "DATA.CSV"[3..] == "A.CSV";
  }

  datatype File = File(name: string, content: string)

  /** Everything a chosen file leads to, the parser given as a parameter. */
  function Upload(file: File, parse: string -> Result<Value, string>): (r: Result<seq<Value>, UploadError>)
    ensures r.Success? ==> r.value != []
    ensures r == Failure(UnsupportedFormat) <==> Route(file.name) == Unsupported
  {
    match Route(file.name)
    case JsonFile => JsonUpload(parse(file.content))
    case CsvFile => CsvUpload(file.content)
    case Unsupported => Failure(UnsupportedFormat)
  }

  /** The component's own state. */
  class Uploader {
    var error: Option<string>
    var loading: bool
    var progress: int

    constructor()
      ensures error == None && !loading && progress == 0
    {
      error := None;
      loading := false;
      progress := 0;
    }

    /** `handleFileChange` through to the end of the read it starts: the rows
        handed to `onFileUpload`, if any. */
    method HandleFileChange(file: Option<File>, parse: string -> Result<Value, string>) returns (uploaded: Option<seq<Value>>)
      modifies this
      ensures file.None? ==> uploaded == None && unchanged(this)
      ensures file.Some? ==> !loading
      ensures file.Some? ==>
                match Upload(file.value, parse)
                case Success(rows) => uploaded == Some(rows) && error == None
                case Failure(e) => uploaded == None && error == Some(Message(e))
      ensures file.Some? ==> progress == if Route(file.value.name) == JsonFile then 100 else 0
    {
      if file.None? {
        return None;
      }
      var f := file.value;
      loading := true;
      error := None;
      progress := 0;
      uploaded := None;
      var format := Route(f.name);
      if format == JsonFile {
        var text, steps := ReadJsonChunks(f.content, ChunkSize);
        ProgressFromShape(0, |f.content|, ChunkSize);
        progress := steps[|steps| - 1];
        var rows := JsonUpload(parse(text));
        if rows.Success? {
          uploaded := Some(rows.value);
        } else {
          error := Some(Message(rows.error));
        }
      } else if format == CsvFile {
        var rows := LoadCsv(f.content);
        if rows.Success? {
          uploaded := Some(rows.value);
        } else {
          error := Some(Message(rows.error));
        }
      } else {
        error := Some(Message(UnsupportedFormat));
      }
      loading := false;
    }
  }
}
