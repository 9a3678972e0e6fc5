# canvas-to-notion, modelled in Dafny

canvas-to-notion takes the course and assignment data a user exports from
Canvas and pastes in. It lets the user pick courses, then builds one list of
assignments:

- the chosen courses' assignments, flattened and tagged with their course title;
- sorted by due date;
- with the assignments that have no due date dropped.

It writes that list out in one of two ways:

- as semicolon-separated spreadsheet text, to the clipboard or to `out.csv`,
  with a hyperlink formula per assignment;
- as pages of a Notion database, created one at a time by a small
  `Requester` that logs progress after every page.

The model covers that core in five modules:

| file | module | models |
|---|---|---|
| `decimal.dfy` | `Decimal` | the decimal text of numbers (`String(n)`, `${n}`) and `padStart(2, '0')`, with a digit reader so that texts can be shown to denote their numbers |
| `assignments.dfy` | `Assignments` | the records: course, assignment, due date (an abstract timestamp with its text) |
| `csv.dfy` | `Csv` | `formatForCSV` and the file content of `outputCSV` |
| `pipeline.dfy` | `Pipeline` | course selection, flattening (a loop), the in-place sort (an insertion sort on an array) and the filter from `main` |
| `notion.dfy` | `Notion` | page construction and the `pages` mapping, and the `Requester` class with its submission loop |

The remote `pages.create` call is an outcome oracle, `outcome: nat -> CreateOutcome`.
It gives the result of the attempt at each index: created, or failed with an error.
The `Requester`'s ghost fields record what the program does to the outside world:

- `attempted`: the indices attempted;
- `submitted`: the payloads passed to `pages.create`;
- `console`: the console lines written, either progress lines or error lines.

## Model

| member | source | states |
|---|---|---|
| Decimal.NatToString | src/notion.js:5 | the decimal text of a number is non-empty, all digits, has no leading zero, and is one character long exactly for numbers below 10 and at most two below 100 |
| Decimal.ParseNatToString | src/notion.js:5 | the decimal text of `n` reads back as `n` |
| Decimal.NatToStringInjective | main.js:15 | different numbers have different decimal texts |
| Decimal.PadStart2 | src/notion.js:5 | `padStart(2, '0')` left-pads a shorter string with zeros to length two and leaves a longer one unchanged |
| Decimal.PaddedTwoDigits | src/notion.js:5 | a number below 100, padded to two places, is two digits that read back as the number |
| Csv.UniqueName | main.js:15 | the new name is the old name, then `@`, then digits that read back as the index |
| Csv.MakeNamesUnique | main.js:14-16 | renaming keeps the number of assignments |
| Csv.MakeNamesUniqueSpec | main.js:14-16 | renaming changes only the name; each name becomes the old name, `@` and its zero-based position; the new names are pairwise distinct even when the old ones are not |
| Csv.Row | main.js:19-21 | every row ends with a line break |
| Csv.Rows | main.js:19-21 | one row per assignment |
| Csv.FormatForCSV | main.js:12-25 | an empty list gives the empty text |
| Csv.FormatForCSVAppend | main.js:14-24 | the text for `s + [a]` is the text for `s` followed by exactly the row of `a`, renamed with position `|s|`: one row per assignment, in input order |
| Csv.ConcatLength | main.js:24 | `join('')` adds no separator: the joined text is as long as its rows together |
| Csv.FormatForCSVLength | main.js:24 | the CSV text is exactly as long as its rows together |
| Csv.RowHasOneLineBreak | main.js:20 | a row whose fields hold no line break holds exactly one, at its end |
| Csv.FormatForCSVLineCount | main.js:19-24 | when no field holds a line break, the text holds exactly one line break per assignment and a non-empty text ends with one |
| Csv.RowColumns | main.js:20 | when no field holds `;`, splitting a row at `;` gives exactly the five columns `=HYPERLINK("url","name")`, course title, empty, due date, `FALSE` and the line break |
| Csv.UniqueRowColumns | main.js:14-20 | the renamed rows still split into five columns, since the `@index` suffix adds no `;` |
| Csv.CsvFileContent | main.js:33 | the file content is `sep=;` and a line break, followed by exactly the CSV text |
| Pipeline.SelectCourses | main.js:138 | the result has one course per chosen index, and its `k`-th course is the course at the `k`-th chosen index, in selection order |
| Pipeline.Tagged | main.js:145-148 | tagging keeps the number of assignments of a course |
| Pipeline.Flatten | main.js:143-149 | the loop of `push`es builds exactly the courses' tagged assignments, course after course |
| Pipeline.FlattenedLength | main.js:143-149 | the flattened list is as long as the course assignment lists together |
| Pipeline.FlattenedAt | main.js:143-149 | assignment `j` of course `ci` lands at position (assignments of earlier courses) + `j`, with `courseTitle` set to its course's title: course order and within-course order are kept |
| Pipeline.CompareDue | main.js:153-155 | the comparator is positive exactly when the first assignment is due later and zero exactly when both are due at the same time, a `null` due date counting as the epoch (time 0) |
| Pipeline.WithKeyAppend | main.js:153-155 | taking the assignments due at one time distributes over joined lists |
| Pipeline.SwapKeepsKeyOrder | main.js:153-155 | exchanging neighbours with different due dates keeps, for every due time, the order of the assignments due then |
| Pipeline.InsertBackward | main.js:153-155 | one round of the sort: the array is rearranged (same multiset, same order within each due time) its first `i + 1` elements are ordered, and the elements after position `i` are unchanged |
| Pipeline.SortByDueDate | main.js:153-155 | the in-place sort leaves a permutation of the array that is ordered by due date, and it is stable: for every due time, the assignments due then keep their relative order |
| Pipeline.FilterDue | main.js:159 | the filter never lengthens the list and keeps only assignments with a due date |
| Pipeline.FilterDueOrder | main.js:159 | the result is the input read at a strictly increasing list of positions that includes every position holding a due date: exactly the dated assignments, in their relative order |
| Pipeline.FilterDueCount | main.js:159 | each assignment with a due date is kept as often as it occurs, and every other assignment is dropped |
| Pipeline.FilterDueOfDated | main.js:159 | a list where every assignment has a due date passes unchanged |
| Pipeline.FilterDueKeepsOrder | main.js:153-159 | filtering a list ordered by due date leaves it ordered |
| Pipeline.FilterDueAppend | main.js:159 | filtering distributes over joined lists |
| Pipeline.WithKeyFilterDue | main.js:153-159 | keeping the dated assignments and keeping those due at one time commute |
| Pipeline.PrepareAssignments | main.js:138-159 | the pipeline's result holds exactly the selected courses' dated assignments, with multiplicity, ordered by due date; assignments due at the same time appear in their flattened order (course order, then order within the course) |
| Notion.DateString | src/notion.js:4-5 | the date text is the year's digits, `-`, two characters, `-`, two characters |
| Notion.DateStringRoundTrip | src/notion.js:5 | the date text reads back as the year, the one-based month and the day |
| Notion.MakeAssignmentPage | src/notion.js:3-23 | the page carries the database id, the lightning icon, the course title as `Class`, the name as the only `Name` title part and the link as `Canvas`; `Due By` and `Do By` are the same date with no end, and its start reads back as the local date of the due date |
| Notion.MakePages | src/notion.js:86 | one page per assignment, in the same order, each carrying the database id, the lightning icon, that assignment's fields, and the same `Due By` and `Do By` date with no end, whose start reads back as the assignment's local date |
| Notion.StopIndexSpec | src/notion.js:40-49 | the batch started at `lo` stops at the first index at or after `lo` that is past the end or holds no page, and not before it |
| Notion.DenseBatchRunsToEnd | src/notion.js:42 | a list in which every entry is a page is run to its end |
| Notion.FirstGapEndsBatch | src/notion.js:42 | with the first missing entry at `k`, the batch stops at `k` |
| Notion.StepLines | src/notion.js:25-31 | one attempt writes its caught error if it failed, then exactly one progress line numbered `i + 1` |
| Notion.TranscriptProgress | src/notion.js:46 | whatever the outcomes, attempts `lo` to `hi` write progress lines numbered `lo + 1` to `hi`, in order |
| Notion.TranscriptErrors | src/notion.js:26-30 | exactly one error line is written per failed attempt, and none per created page |
| Notion.ProgressTextInjective | src/notion.js:46 | progress lines for different pages have different texts |
| Notion.Requester.constructor | src/notion.js:34-38 | a new requester holds the pages, starts at index 0 and has attempted, submitted and logged nothing |
| Notion.Requester.MakeAssignmentFromPage | src/notion.js:25-31 | one create call: the page is submitted, and a failure is logged and not passed on |
| Notion.Requester.Submit | src/notion.js:44-47 | one round of `next()`: the page at `currentIndex` is submitted, its attempt's lines are logged and `currentIndex` grows by one |
| Notion.Requester.Next | src/notion.js:40-49 | `next()` attempts indices `currentIndex` onwards, each once and in order, up to the first index past the end or without a page, whatever the outcomes; it submits those payloads and logs their transcript |
| Notion.MakeAssignmentsInNotion | src/notion.js:85-87 | every assignment's page is attempted exactly once, in list order, and the console holds the transcript of all N attempts |

## Left out

- Terminal and file I/O is not modelled: the clipboard, `fs.writeFileSync`, the enquirer prompts, `process.exit` and the console messages other than the `Requester`'s. `CsvFileContent` is the text that would be written.
- The browser-side fetch script in `main.js` is not part of this model, and neither is `src/getCanvasAssignments.js`. Both are HTTP calls to the Canvas API.
- The Notion client is not modelled: `Client`, `search` and `databases.update`. The database id is a parameter, and `pages.create` is the outcome oracle.
- `JSON.parse` and the check on the shape of the pasted text are not modelled. The model starts from well-formed courses.
- `async`/`await` is modelled as sequential code; each `await` completes before the next statement.
- `Date` parsing and time zones are not modelled. A due date is its text plus an abstract integer timestamp. Page construction takes the local calendar date as a function `localDate` of the assignment, the values `getFullYear`, `getMonth` and `getDate` would report.
- Notion.CalendarDate: years are natural numbers, so negative years (which `getFullYear` can report) are not modelled.
- Notion.DateString: the year is written as `getFullYear()` gives it, without padding. It has four digits only for years 1000 to 9999; the code, not a four-digit format, is what is modelled.
- Assignments.Assignment: a due date is present or `null`. An empty-string `due_at`, which is falsy for the filter but still a value, is not represented.
- Pipeline.SelectCourses: it requires every chosen index to name a course. The prompt only offers the listed courses; an out-of-range index would give `undefined` in JavaScript.
- Pipeline.Flatten: the source sets `courseTitle` on the shared assignment objects in place. The model builds tagged copies as values, so aliasing between the course lists and the flat list is not captured.
- Pipeline.SortByDueDate: `Array.prototype.sort` is modelled by one algorithm, an insertion sort that swaps neighbours only while the comparator is positive. A `null` due date is `new Date(null)`, the epoch, and sorts as time 0. A `due_at` text that does not parse gives an invalid date and a NaN comparison, after which the engine's order is implementation-defined; since a due date is modelled by an abstract timestamp, that case is not represented.
- Notion.Requester.MakeAssignmentFromPage: in the source it is a module-level function taking the client. Here it is a method of `Requester`, because it writes to the ghost logs. The caught error object is modelled by its message.
- Notion.Requester.Next: the source recurs once per page (a tail call); the model runs the same steps as a loop.
- Notion.Requester.Next: an entry without a page stands for any falsy entry. Pages built by `makeAssignmentPage` are always objects, so in the real program only the end of the list stops the batch.
