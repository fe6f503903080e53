# Fire-N-Receive: a Dafny model of the SQL query runner's data handling

Fire-N-Receive is a browser page for running SQL queries. Queries go to a mock
runner, results show in a paginated table, results can be exported as CSV, and
`.csv` or `.json` files can be uploaded as data. This project models that
logic in Dafny and proves what the components promise about it:

- **FileUploader** (`src/components/FileUploader.tsx`), the upload component:
  - choosing a reader by file extension;
  - `parseCSV`, with the line splitter, the filter for blank lines, the header
    line, the per-character tokenizer with its quote flag, and the
    header-to-value rows;
  - the checks `handleLargeCsvFile` makes and the error messages they set;
  - the chunked read of a `.json` file and the progress values it sets;
  - choosing the rows from the parsed JSON value;
  - the `error`/`loading`/`progress` state.
- **ResultsTable** (`src/components/ResultsTable.tsx`), the results grid:
  - the rows of the current page and the number of pages;
  - the "Showing x to y" range;
  - the page-number buttons with their ellipses, as the loops of
    `getPageNumbers` build them;
  - the cell text and tooltip;
  - the `currentPage`/`pageSize` state.
- **HomePage** (`src/pages/HomePage.tsx`), the main page:
  - the text `exportToCSV` builds, with its round trip through `parseCSV`;
  - the state that `runQuery`, `saveCurrentQuery` and query selection change.
- **QueryExecutor** (`src/api/queryExecutor.ts`), the mock runner. It is a
  keyword classifier with a fixed priority order over four datasets.
- **DatabaseExplorer**, **QueryHistory** and **QueryEditor**:
  - the expand toggle of the schema tree;
  - the titles in the history list and how queries are truncated;
  - the line count, height clamp and gutter of the editor.

Shared modules:

- **Text** models the JavaScript string operations the components use.
- **Json** models the values `JSON.parse` returns and the CSV reader builds. An
  object is the list of its properties in key order.
- **Arith** holds the division facts the page and progress arithmetic needs.
- **Wrappers** holds `Option` and `Result`.

Imperative code is modelled as methods with loops, each proved equal to a
function that states what it computes:

- the loops of `parseCSV`: `ParseCsv`, `ReadRows`, `TokenizeLine` and
  `BuildRow`;
- the chunk loop of the JSON reader;
- the push loops of `getPageNumbers`.

Component state is modelled as classes whose methods change their fields.

Several things outside the model become parameters:

- the four mock datasets;
- `JSON.parse`, as a function from text to a value or an error message;
- the clock readings;
- the answer to the name prompt;
- the first predefined query.

## Model

| member | source | states |
|---|---|---|
| Text.TrimStartDrops | src/components/FileUploader.tsx:29 | `trimStart` removes only whitespace, and all of it up to the first other character |
| Text.TrimEndDrops | src/components/FileUploader.tsx:29 | `trimEnd` removes only whitespace, and all of it back to the last other character |
| Text.TrimEmptyIffBlank | src/components/FileUploader.tsx:182 | `s.trim()` is empty exactly when every character of `s` is whitespace |
| Text.TrimUnchanged | src/components/FileUploader.tsx:35 | a string that neither starts nor ends with whitespace is its own trim |
| Text.SplitOn | src/components/FileUploader.tsx:35 | `split` on one character always gives at least one piece |
| Text.SplitCount | src/components/QueryEditor.tsx:27 | `split` gives one piece more than there are separators, and no piece holds the separator |
| Text.JoinSplit | src/components/FileUploader.tsx:35 | joining the pieces of a split with the separator gives back the string |
| Text.SplitPrefix | src/components/FileUploader.tsx:35 | text without a separator in front of a string joins the string's first piece |
| Text.SplitSeparator | src/components/FileUploader.tsx:35 | a leading separator gives an empty first piece |
| Text.SplitJoin | src/components/FileUploader.tsx:35 | splitting a join on a separator that no piece contains gives back the pieces |
| Text.JoinCons | src/pages/HomePage.tsx:73 | text added to the front of the first part is at the front of the join |
| Text.JoinAvoids | src/pages/HomePage.tsx:70-73 | a character in no part and not in the separator is not in the join |
| Text.JoinStartsWith | src/pages/HomePage.tsx:71 | a join starts with its first part |
| Text.LowerAscii | src/api/queryExecutor.ts:11 | `toLowerCase` keeps the length and lower-cases each ASCII letter in place |
| Text.LowerAsciiIdempotent | src/api/queryExecutor.ts:11 | lower-casing twice is lower-casing once |
| Text.Without | src/components/FileUploader.tsx:52-53 | deleting a character leaves none of it, and changes nothing when there was none |
| Text.Decimal | src/api/queryExecutor.ts:16 | `String(n)` of a natural number is a non-empty string of digits, as used for array index keys |
| Json.Keys | src/api/queryExecutor.ts:16 | `Object.keys` lists one key per property, in property order |
| Json.GetFinds | src/components/FileUploader.tsx:126 | reading a key gives `undefined` exactly when the object lacks it, and otherwise a value stored under it |
| Json.SetKeys | src/components/FileUploader.tsx:66 | assignment keeps the key order; a new key is added last |
| Json.GetAfterSet | src/components/FileUploader.tsx:66 | after `obj[key] = v`, `key` reads `v` and every other key reads as before |
| Json.SetKeepsKeysUnique | src/components/FileUploader.tsx:63-68 | assignment never duplicates a key |
| Json.ObjectKeys | src/api/queryExecutor.ts:16 | `Object.keys` throws exactly for `null`, and gives an object's keys in order |
| Arith.DivAtLeast | src/components/ResultsTable.tsx:66 | a dividend of at least `q` divisors has a quotient of at least `q` |
| Arith.QuotientIsDiv | src/components/FileUploader.tsx:115 | the repeated-subtraction quotient used for the progress value is integer division |
| Arith.QuotientMonotone | src/components/FileUploader.tsx:115 | a larger dividend never gives a smaller quotient |
| Arith.QuotientAtLeast | src/components/FileUploader.tsx:115 | a dividend of at least `q` divisors has a quotient of at least `q` |
| FileUploader.SplitLines | src/components/FileUploader.tsx:29 | `split(/\r\n\|\n\|\r/)` gives at least one line, and no line holds `\n` or `\r` |
| FileUploader.NonBlank | src/components/FileUploader.tsx:29 | the filter keeps exactly the lines that are not blank, and keeps all lines when none is blank |
| FileUploader.LinesPrefix | src/components/FileUploader.tsx:29 | text without a line break at the front of a string joins the string's first line |
| FileUploader.SplitJoinedLines | src/components/FileUploader.tsx:29 | lines without breaks, joined with `\n`, split back into the same lines |
| FileUploader.CharOnSomeLine | src/components/FileUploader.tsx:29 | every character that is not a line break lands on some line |
| FileUploader.NotBlankHasLine | src/components/FileUploader.tsx:29-33 | text that is not blank has a non-blank line, so "No data found in CSV file" follows only from blank text |
| FileUploader.StripQuotes | src/components/FileUploader.tsx:35 | `replace(/^"\|"$/g, "")` gives the slice without one leading `"` if there is one, and without one trailing `"` of what remains if there is one; nothing changes without a `"` at either end |
| FileUploader.Headers | src/components/FileUploader.tsx:35 | the header line gives one header per comma plus one, whatever its quotes, and header `i` is the `i`-th comma-separated cell, trimmed and then unquoted |
| FileUploader.HeaderNames | src/components/FileUploader.tsx:35 | one header name per header cell, each the cell trimmed and then unquoted |
| FileUploader.HeadersOfJoin | src/components/FileUploader.tsx:35 | column names without commas, quotes or surrounding whitespace come back unchanged from a joined header line |
| FileUploader.CleanNamesUnchanged | src/components/FileUploader.tsx:35 | names without quotes or surrounding whitespace pass trimming and unquoting unchanged |
| FileUploader.ScanFields | src/components/FileUploader.tsx:51-61 | a data line always has at least one field |
| FileUploader.FieldsUnquoted | src/components/FileUploader.tsx:52-53 | a `"` is never copied into a field |
| FileUploader.FieldCount | src/components/FileUploader.tsx:54-61 | a data line has one field more than it has commas outside quotes |
| FileUploader.FieldsJoinBack | src/components/FileUploader.tsx:51-61 | only the quotes are lost: the fields joined with commas are the line without its `"` characters |
| FileUploader.UnquotedFields | src/components/FileUploader.tsx:51-61 | a line without quotes is split at every comma |
| FileUploader.QuotedCommaKept | src/components/FileUploader.tsx:51-61 | a comma inside quotes stays in its field: `a,"b,c",d` has the fields `a`, `b,c` and `d` |
| FileUploader.QuotedPrefix | src/components/FileUploader.tsx:57-58 | inside quotes, every character but `"` joins the current field |
| FileUploader.QuoteAll | src/pages/HomePage.tsx:72 | each field is wrapped in double quotes, in order |
| FileUploader.QuotedField | src/components/FileUploader.tsx:51-61 | a quoted value at the front of a line is the front of the line's first field |
| FileUploader.QuotedLineFields | src/components/FileUploader.tsx:51-61 | a line of double-quoted values without `"`, joined with commas, gives back the values, commas inside them included |
| FileUploader.ResumeComma | src/components/FileUploader.tsx:54-56 | a comma outside quotes closes the current field and starts an empty one |
| FileUploader.ResumeChar | src/components/FileUploader.tsx:57-58 | any other character is appended to the current field |
| FileUploader.ScanOne | src/components/FileUploader.tsx:51-60 | what one character does to the fields of the rest of the line |
| FileUploader.TokenizeLine | src/components/FileUploader.tsx:47-61 | the character loop produces exactly the fields of the line |
| FileUploader.RowOfAbsent | src/components/FileUploader.tsx:63-68 | a header is a key of the row exactly when it is among the first `min(#headers, #values)` headers, so surplus values are dropped |
| FileUploader.RowOfLastWins | src/components/FileUploader.tsx:63-68 | when headers repeat, the last one that has a value wins |
| FileUploader.RowOfKeys | src/components/FileUploader.tsx:63-68 | with distinct headers, the row's keys are the first `min(#headers, #values)` headers, in insertion order |
| FileUploader.BuildRow | src/components/FileUploader.tsx:63-68 | the `forEach` builds exactly the row object |
| FileUploader.RowsOf | src/components/FileUploader.tsx:44-71 | one row per data line |
| FileUploader.RowsOfFields | src/components/FileUploader.tsx:44-71 | data lines whose fields are known give the rows of those fields, in order |
| FileUploader.ParseCsv | src/components/FileUploader.tsx:27-78 | `parseCSV` fails with "No data found in CSV file" when no line is non-blank; otherwise the first non-blank line gives the headers and each later non-blank line gives one row |
| FileUploader.ReadRows | src/components/FileUploader.tsx:44-71 | the line loop pushes one row per data line, in order |
| FileUploader.LoadCsv | src/components/FileUploader.tsx:174-204 | the `onload` handler applies the checks for an empty read, blank text and no rows, in the source's order |
| FileUploader.CsvUploadOutcome | src/components/FileUploader.tsx:176-191 | "Failed to read file" exactly for empty text; "File is empty" exactly for whitespace-only text; "No data found in CSV file" never; "No data rows found in the file" exactly when one line is non-blank; on success, one row per non-blank line after the header |
| FileUploader.FirstArrayKey | src/components/FileUploader.tsx:125-128 | `find` gives the first key whose value is an array, or nothing when there is none |
| FileUploader.ArrayProp | src/components/FileUploader.tsx:125-128 | the property chosen is the first, in key order, that holds an array; nothing is chosen exactly when no property holds one |
| FileUploader.NonEmptyRows | src/components/FileUploader.tsx:140-142 | an empty array gives "File contains no data"; a non-empty one is passed through |
| FileUploader.SelectRows | src/components/FileUploader.tsx:123-142 | an array root is used as it is; an object root uses its first array property; anything else gives "JSON file must contain an array of objects"; the rows taken are never empty (the corrected test of the first Findings row) |
| FileUploader.SelectRowsDiffer | src/components/FileUploader.tsx:130 | the code as written agrees with `SelectRows` except when the first array property is named `""`, which it rejects |
| FileUploader.EmptyKeyRejected | src/components/FileUploader.tsx:130 | `{"": [{"x": 1}]}` is rejected as written, and gives its one row as intended |
| FileUploader.JsonUpload | src/components/FileUploader.tsx:120-154 | a parse error's message becomes the error; a parsed value goes through the corrected row selection of the first Findings row |
| FileUploader.Progress | src/components/FileUploader.tsx:115 | the progress value lies between 0 and 100, and is 100 once the offset reaches the size |
| FileUploader.ProgressRounds | src/components/FileUploader.tsx:115 | the progress value is `Math.round(offset / size * 100)`, capped at 100 |
| FileUploader.ProgressMonotone | src/components/FileUploader.tsx:115 | the progress value never goes back as the offset grows |
| FileUploader.ProgressFrom | src/components/FileUploader.tsx:114-118 | every read sets a progress value |
| FileUploader.ProgressFromShape | src/components/FileUploader.tsx:114-118 | the progress values never decrease and end at exactly 100 |
| FileUploader.ProgressFromUnfold | src/components/FileUploader.tsx:114-118 | each read sets its value, then the reads still to come set theirs |
| FileUploader.ReadStep | src/components/FileUploader.tsx:113 | appending a chunk extends the text read by that chunk; the last chunk completes it |
| FileUploader.AppendStep | src/components/FileUploader.tsx:115 | recording the next progress value keeps the values in order |
| FileUploader.ReadJsonChunksAsWritten | src/components/FileUploader.tsx:108-168 | as written, the whole text is assembled in order with one progress value per read, except that an empty file never finishes |
| FileUploader.ReadJsonChunks | src/components/FileUploader.tsx:104-119 | the chunk loop assembles the whole text in order and sets one progress value per read |
| FileUploader.Route | src/components/FileUploader.tsx:90-100 | `.json` selects the JSON reader, otherwise `.csv` selects the CSV reader, otherwise the format is unsupported |
| FileUploader.UpperCaseExtension | src/components/FileUploader.tsx:90-96 | the extension test is case-sensitive: `DATA.CSV` is unsupported |
| FileUploader.Upload | src/components/FileUploader.tsx:80-101 | a chosen file gives non-empty rows or an error; the unsupported-format error comes exactly from the extension; `.json` text goes through the corrected row selection of the first Findings row |
| FileUploader.Uploader.constructor | src/components/FileUploader.tsx:17-19 | no error, not loading, progress 0 |
| FileUploader.Uploader.HandleFileChange | src/components/FileUploader.tsx:80-101 | no file changes nothing; otherwise loading ends with either the rows handed on and no error, or the failure's message as the error (for `.json`, with the corrected reader and row selection of both Findings rows) |
| ResultsTable.SliceIndex | src/components/ResultsTable.tsx:51 | `slice` clamps an index into the array and keeps one already inside it |
| ResultsTable.JsSlice | src/components/ResultsTable.tsx:51 | `slice(start, end)` within bounds is the subsequence; an empty range gives nothing |
| ResultsTable.PageRows | src/components/ResultsTable.tsx:46-52 | a page starting within the data shows at most `pageSize` consecutive rows from its start; a page starting past the end shows all the data |
| ResultsTable.FirstPage | src/components/ResultsTable.tsx:46-52 | the first page shows the first `pageSize` rows |
| ResultsTable.TotalPages | src/components/ResultsTable.tsx:66 | `Math.ceil(n / pageSize)`: the least number of pages that holds `n` rows, which is 0 exactly when there are no rows |
| ResultsTable.PageStartsInside | src/components/ResultsTable.tsx:47 | every page up to the last starts inside the data |
| ResultsTable.PagesFromSuffix | src/components/ResultsTable.tsx:46-66 | the pages from one on, read in order, are the rows from that page's start |
| ResultsTable.PagesPartition | src/components/ResultsTable.tsx:46-66 | the pages, read in order, are exactly the data: nothing is lost or repeated |
| ResultsTable.SliceSplit | src/components/ResultsTable.tsx:51 | a suffix is a slice followed by the rest |
| ResultsTable.ShownRange | src/components/ResultsTable.tsx:191-192 | the end of the shown range never passes the row count |
| ResultsTable.ShownRangeCountsRows | src/components/ResultsTable.tsx:190-192 | for a page starting within the data, "Showing start to end" counts exactly the rows shown |
| ResultsTable.CellText | src/components/ResultsTable.tsx:240 | a `null` or `undefined` cell shows nothing |
| ResultsTable.TitleMatchesCell | src/components/ResultsTable.tsx:239-240 | the tooltip differs from the cell exactly for `false`, `0` and `NaN` |
| ResultsTable.CellMatchesExport | src/components/ResultsTable.tsx:240 | a cell shows what the export writes, except for `null` and `undefined` |
| ResultsTable.Buttons | src/components/ResultsTable.tsx:102-104 | the buttons from `first` to `last`, in order |
| ResultsTable.Window | src/components/ResultsTable.tsx:83-94 | with more than seven pages, the window lies within 2 and `totalPages - 1`, spans at most five pages, and holds the current page unless that is the first or the last |
| ResultsTable.PushPages | src/components/ResultsTable.tsx:102-104 | the push loop appends the buttons from `first` to `last` |
| ResultsTable.GetPageNumbers | src/components/ResultsTable.tsx:69-116 | `getPageNumbers`, loops and all, builds exactly the page list |
| ResultsTable.Numbers | src/components/ResultsTable.tsx:290-308 | the page numbers among the buttons are never more than the buttons |
| ResultsTable.Run | src/components/ResultsTable.tsx:102-104 | the numbers from `first` to `last`, in order |
| ResultsTable.NumbersAppend | src/components/ResultsTable.tsx:69-116 | the numbers of two lists of buttons, one after the other |
| ResultsTable.NumbersOfButtons | src/components/ResultsTable.tsx:102-104 | the numbers of the buttons from `first` to `last` are `first` to `last` |
| ResultsTable.FewPagesAllShown | src/components/ResultsTable.tsx:73-77 | with up to seven pages, the list is exactly pages 1 to `totalPages`, in order, with no ellipsis |
| ResultsTable.NumbersOfManyPages | src/components/ResultsTable.tsx:78-113 | with more than seven pages, the numbers shown are page 1, the window, and the last page |
| ResultsTable.ManyPagesNumbers | src/components/ResultsTable.tsx:80-112 | with more than seven pages: the list starts with 1 and ends with `totalPages`; at most seven numbers; all rising and within range; the current page is among them |
| ResultsTable.ManyPagesEllipses | src/components/ResultsTable.tsx:97-109 | the first ellipsis is there exactly when page 2 is not, the second exactly when page `totalPages - 1` is not |
| ResultsTable.ShownMembers | src/components/ResultsTable.tsx:80-112 | a number is shown exactly when it is 1, in the window, or the last page |
| ResultsTable.ManyPagesLayout | src/components/ResultsTable.tsx:78-113 | with more than seven pages: page 1, the first ellipsis if the window starts after page 2, the window, the second ellipsis if it ends before page `totalPages - 1`, then the last page |
| ResultsTable.LayoutGapsMarked | src/components/ResultsTable.tsx:97-109 | in that layout, adjacent numbers are consecutive, and every ellipsis stands between two pages that skip at least one |
| ResultsTable.LayoutEllipses | src/components/ResultsTable.tsx:97-109 | in that layout, each ellipsis is there exactly when its side of the window leaves a gap |
| ResultsTable.PageNumbersGapsMarked | src/components/ResultsTable.tsx:69-116 | for any page count, adjacent numbers are consecutive and every ellipsis marks skipped pages |
| ResultsTable.PaginationState.constructor | src/components/ResultsTable.tsx:13-14 | the table starts on page 1 with 100 rows per page |
| ResultsTable.PaginationState.HandlePageChange | src/components/ResultsTable.tsx:55-57 | the current page becomes the one asked for, and the page size is kept |
| ResultsTable.PaginationState.HandlePageSizeChange | src/components/ResultsTable.tsx:60-63 | the new size is set and the table goes back to page 1, which shows the first `size` rows |
| HomePage.Fields | src/pages/HomePage.tsx:72 | one field per column, in column order, each `${row[col]}` |
| HomePage.ExportLines | src/pages/HomePage.tsx:70-73 | the header line `columns.join(",")`, then one line per result row; `results.length + 1` lines |
| HomePage.ExportContent | src/pages/HomePage.tsx:67-73 | the export does nothing exactly when there are no results |
| HomePage.QuotedAvoids | src/pages/HomePage.tsx:72 | quoting adds no character but `"` |
| HomePage.ExportLineUnbroken | src/pages/HomePage.tsx:70-73 | for exportable data, no line of the export holds a line break |
| HomePage.ExportSplitsIntoLines | src/pages/HomePage.tsx:70-73 | the export text splits back into its header line and one line per row |
| HomePage.HeaderLineNotBlank | src/pages/HomePage.tsx:71 | the header line is not blank |
| HomePage.RowLineNotBlank | src/pages/HomePage.tsx:72 | a row line is not blank |
| HomePage.ExportLinesNotBlank | src/pages/HomePage.tsx:70-73 | no line of the export is blank |
| HomePage.ExportNonBlankLines | src/pages/HomePage.tsx:70-73 | `parseCSV`'s line filter keeps every line of the export |
| HomePage.ReadBack | src/pages/HomePage.tsx:72 | one re-read row per exported row |
| HomePage.RowLineFields | src/pages/HomePage.tsx:72 | `parseCSV`'s tokenizer reads a row line back as the row's field texts |
| HomePage.ExportDataRows | src/pages/HomePage.tsx:72 | every exported row line reads back as the row of its field texts |
| HomePage.ExportRoundTrip | src/pages/HomePage.tsx:67-73 | re-reading an export with `parseCSV` gives, for each row in order, the exported columns holding the text of its cells |
| HomePage.ReadBackRow | src/pages/HomePage.tsx:72 | with distinct columns, a re-read row has exactly the exported columns as keys, in order, each holding the text exported for it |
| HomePage.Page.constructor | src/pages/HomePage.tsx:20-26 | the page opens with the first predefined query and no results, history or saved queries |
| HomePage.Page.StartRun | src/pages/HomePage.tsx:34-35 | a blank query changes nothing; any other query sets loading and changes nothing else |
| HomePage.Page.FinishRun | src/pages/HomePage.tsx:38-51 | success replaces the results and columns and puts the query at the front of the history; failure empties the results and columns and keeps the history; either way loading ends |
| HomePage.Page.RunQuery | src/pages/HomePage.tsx:33-52 | `runQuery` against the mock runner: no effect for a blank query; otherwise loading ends with the runner's outcome as above, the columns always being the first result row's keys; a success records the query in the history and the elapsed time, a failure empties the results and clears the execution time |
| HomePage.Page.SaveCurrentQuery | src/pages/HomePage.tsx:60-65 | a non-empty name appends `{query, name}` at the end; a cancelled or empty name saves nothing |
| HomePage.Page.SetQuery | src/pages/HomePage.tsx:56-58 | choosing a query sets the editor text and nothing else |
| QueryExecutor.ClassifyIsFirstMatch | src/api/queryExecutor.ts:13-38 | the if/else chain is a first-match search over the keyword groups in priority order, with employees as the default |
| QueryExecutor.EitherWord | src/api/queryExecutor.ts:13 | a group matches when either of its words occurs |
| QueryExecutor.ClassifyIgnoresCase | src/api/queryExecutor.ts:11 | queries that lower-case alike select the same dataset |
| QueryExecutor.ClassifyLowered | src/api/queryExecutor.ts:11 | lower-casing a query first changes nothing |
| QueryExecutor.LowerAsciiAppend | src/api/queryExecutor.ts:11 | lower-casing distributes over concatenation |
| QueryExecutor.ContainsSuffix | src/api/queryExecutor.ts:13 | a word occurs in any text that ends with it |
| QueryExecutor.StaffWins | src/api/queryExecutor.ts:13-17 | a query whose lower-cased text contains `employee` or `staff` selects the employees, whatever else it says |
| QueryExecutor.StaffSuffixWins | src/api/queryExecutor.ts:11-17 | appending `STAFF` to any query selects the employees |
| QueryExecutor.DefaultIsEmployees | src/api/queryExecutor.ts:35-38 | a query with no keyword selects the employees |
| QueryExecutor.Execute | src/api/queryExecutor.ts:9-39 | the runner succeeds exactly when the chosen dataset has a first row other than `null`; it returns that dataset with the first row's keys as the columns |
| DatabaseExplorer.Toggle | src/components/DatabaseExplorer.tsx:26-31 | toggling flips the table's flag, an absent flag counting as collapsed unless the name is inherited from `Object.prototype`, and leaves every other entry as it was |
| DatabaseExplorer.InheritedNamesStartOpen | src/components/DatabaseExplorer.tsx:20-31 | before any click exactly the tables named like an `Object.prototype` property show as expanded, and the first click collapses them |
| DatabaseExplorer.ToggleTwice | src/components/DatabaseExplorer.tsx:26-31 | toggling a table twice shows it as before |
| DatabaseExplorer.ToggleCommutes | src/components/DatabaseExplorer.tsx:26-31 | toggling two different tables gives the same map in either order |
| DatabaseExplorer.Render | src/components/DatabaseExplorer.tsx:22-70 | without a structure, the message shows whatever the map holds; otherwise every table shows in order, with its columns listed exactly when it is expanded |
| DatabaseExplorer.ToggleChangesOnlyThatTable | src/components/DatabaseExplorer.tsx:42-70 | a click changes only the tables of the name clicked, which flip open or shut |
| QueryHistory.Prefix | src/components/QueryHistory.tsx:26 | `substring(0, n)` is the first `n` characters, clamped to the string |
| QueryHistory.TruncateShape | src/components/QueryHistory.tsx:25-27 | a query that fits comes back unchanged; a longer one becomes its first `maxLength` characters then "..."; never longer than `maxLength + 3` |
| QueryHistory.TruncateKeepsStart | src/components/QueryHistory.tsx:25-27 | truncation keeps as much of the start of the query as fits |
| QueryHistory.Title | src/components/QueryHistory.tsx:37 | the title is the name when it is non-empty, otherwise the query truncated to 40 characters |
| QueryHistory.Render | src/components/QueryHistory.tsx:17-44 | "No items yet" exactly for an empty list; otherwise one entry per item, in order, with its title and the query a click selects |
| QueryHistory.TitleLength | src/components/QueryHistory.tsx:37 | a title is never longer than the name, or than 43 characters |
| QueryEditor.LineCount | src/components/QueryEditor.tsx:27 | the line count is the number of `\n` characters plus one |
| QueryEditor.EditorHeight | src/components/QueryEditor.tsx:28 | the height always lies between 200 and 600 |
| QueryEditor.HeightMonotone | src/components/QueryEditor.tsx:28 | more lines never make the editor shorter |
| QueryEditor.HeightFollowsLines | src/components/QueryEditor.tsx:28 | from 10 to 30 lines, the height is 20 pixels per line |
| QueryEditor.HeightOfText | src/components/QueryEditor.tsx:27-28 | the height of a text, from its number of newlines |
| QueryEditor.Gutter | src/components/QueryEditor.tsx:35-37 | the gutter shows the numbers 1 to the line count, in order |

## Left out

- `FileReader`, `File.slice` and decoding text from bytes are not modelled. A file is its text. `file.size` counts bytes but is taken as the number of characters, so the chunk offsets count characters.
- Decoding UTF-8 across chunk boundaries is not modelled.
- JavaScript strings are UTF-16: `length` and `substring` count code units, and the model counts characters.
- The `onerror` handlers of both readers ("Error reading file") are not modelled, because read failures are I/O.
- The CSV reader's `onprogress` handler is not modelled, because it reports I/O progress.
- FileUploader.JsonUpload: models the corrected row selection of the first Findings row, so `{"": [...]}` uploads its rows where the program reports "JSON file must contain an array of objects" (`FileUploader.SelectRowsDiffer` states the difference).
- FileUploader.Upload: builds on `FileUploader.JsonUpload`, so it models the same corrected row selection for `.json` files.
- FileUploader.Uploader.HandleFileChange: models the corrected JSON handling of both Findings rows. `{"": [...]}` uploads its rows where the program reports an error. An empty `.json` file ends loading with the `JSON.parse` error where the program stays loading, with progress 0 and no error (`FileUploader.ReadJsonChunksAsWritten` models the latter).
- FileUploader.Uploader.HandleFileChange: leaves the progress at 0 on the CSV path, because `onprogress` is not modelled. It also runs the read to the end in one call, so the intermediate `loading` and `progress` values are not modelled.
- The "An unknown error occurred" and "Error parsing JSON file" branches are not modelled. Only `Error` objects are thrown there, so those branches are never taken.
- The "No headers found in CSV file" check (`src/components/FileUploader.tsx:37-39`) is not modelled, because `split` always returns at least one header (`FileUploader.Headers`).
- The second blank-line check inside the loop (`src/components/FileUploader.tsx:45`) is not modelled, because the lines were already filtered.
- `JSON.parse` is a parameter. The grammar of JSON text is not modelled.
- `onFileUpload` is modelled as the rows returned, and `onSelect` and `onTableClick` as the query or table a click selects. What the callers then do is not modelled.
- Json.Keys: JavaScript enumerates integer-like keys first, in ascending order. The model keeps every key in insertion order. This differs for objects with keys such as `0` or `1` in three places: the first array property `FileUploader.ArrayProp` picks (`{"rows": [...], "0": [...]}` takes `"0"` in JavaScript), the column order `QueryExecutor.Execute` returns, and the keys of a CSV row that `FileUploader.RowOfKeys` states (the header line `b,1` gives `["1","b"]` in JavaScript).
- FileUploader.RowOfKeys: states the row's keys in header order, which is JavaScript's `Object.keys` order only when no header is integer-like, as the `Json.Keys` line says.
- FileUploader.RowOf: a header named `__proto__` is stored as a key, whereas `row["__proto__"] = value` with a string value creates no property in JavaScript.
- HomePage.Fields: rows are taken to be objects: a row that is an array or a string reads every column as `undefined`, where JavaScript reads its index properties (`row["0"]`); the program's datasets are arrays of objects. A column missing from a row reads as `undefined`. For a column named like an `Object.prototype` property (`constructor`, `toString`, ...), JavaScript reads the inherited function and exports its source text.
- ResultsTable.CellText: rows are taken to be objects: a row that is an array or a string shows every cell empty, where JavaScript reads its index properties; the program's datasets are arrays of objects. A column missing from a row shows nothing. For a column named like an `Object.prototype` property, JavaScript shows the inherited function's source text.
- Json.Value: a number carries the text `String(n)` gives for it. Number formatting, floating point and `NaN` arithmetic are not modelled.
- FileUploader.Progress: works in exact arithmetic. The floating-point rounding of `offset / file.size * 100` is not modelled.
- Text.LowerAscii: `toLowerCase` is modelled for ASCII letters only. No keyword of the runner can arise from lower-casing a non-ASCII character.
- The four mock datasets (`../data/mock-data`) and the predefined queries are parameters, because their contents are constant data.
- `performance.now` and `new Date()` become the `now` and `elapsed` parameters.
- The `prompt` answer becomes the `name` parameter.
- `toLocaleString` and `toLocaleTimeString` formatting is not modelled.
- `console` logging is not modelled.
- Promise scheduling: `runQuery` is modelled as its start (`StartRun`) and its end (`FinishRun`). A second run started before the first ends is not modelled; the button is disabled while one is loading.
- ResultsTable.PaginationState.HandlePageChange: requires a page of at least 1. The buttons never ask for less, since "previous" is disabled on page 1.
- Button disabling and the active-page highlight are not modelled.
- React rendering, effects and CSS are not modelled, and neither are the dark-mode toggle or the fullscreen API.
- The loading and empty states of the table are not modelled.
- The Blob/URL/anchor download of the export is not modelled. `HomePage.ExportContent` gives the text that would be downloaded.
- The `highlightSQL` regex rewriting of the editor, and the textarea's events, are not modelled.
- `Header.tsx`, `App.tsx`, `vite.config.ts` and `predefinedQueries.ts` are not part of this model, because they hold no data-handling logic.

## Findings

| source | as written | input that shows it | evidently intended | confidence | as-written member | corrected member |
|---|---|---|---|---|---|---|
| src/components/FileUploader.tsx:130 | `if (arrayProp)` tests the key found for truthiness, so an array under the key `""` is reported as missing | `{"": [{"x": 1}]}` gives "JSON file must contain an array of objects" | the first array property is used whatever its name (`arrayProp !== undefined`) | not executed | FileUploader.SelectRowsDiffer | FileUploader.SelectRows |
| src/components/FileUploader.tsx:112 | the `onload` handler acts only on a truthy chunk, and an empty file's only chunk is `""`, so the text is never parsed, no error is set and `loading` stays true | a `.json` file of size 0 | every read completes: the empty text goes to `JSON.parse`, whose error is shown, and loading ends | not executed | FileUploader.ReadJsonChunksAsWritten | FileUploader.ReadJsonChunks |
