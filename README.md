# QueryBot core in Dafny

QueryBot answers questions two ways. For structured questions, a language
model turns the question into MySQL; the statement is pulled out of the
model's reply, run, and shown as a Markdown table. For unstructured
questions, a PDF is ingested into a vector store and questioned through a
retrieval chain. Next to these sit a schema dump, a tool that gives scanned
PDFs a text layer, and two scripts that fill the HRMS sample database.

This project models the logic of those pieces. Each source file becomes
one module:

| module | file | what it holds |
|---|---|---|
| `SqlExtract` | `sql_extract.dfy` | `extract_sql_query`: drops everything up to the first `</think>`, then tries three stages in order: a ```` ```sql ```` fenced block, a `SQL query: SELECT …;` statement, the trimmed text |
| `QueryResult` | `query_result.dfy` | `format_query_result` and its accumulation loop |
| `Driver` | `driver.dfy` | the database as a function from statement to rows or driver error |
| `ChatSession` | `chat_session.dfy` | `src/utils.py`: the session state as a class (database handle, conversation history) with `connect_database`, `run_query` and `get_llm_response` |
| `LegacyUtils` | `legacy_utils.dfy` | `utils.py` at the top level: the string-returning `run_query` and the answer `get_llm_response` assembles |
| `SchemaFetch` | `schema_fetch.dfy` | `get_database_metadata`: the loops over tables, columns, indexes and foreign keys, and the all-or-nothing result |
| `ChatPdf` | `chat_pdf.dfy` | class `ChatPDF`: its three fields, `ingest` with its fallbacks, `ask` and `clear` |
| `ScannedPdf` | `scanned_pdf.dfy` | `is_scanned_pdf` as written and corrected, the y-cursor layout loop of `scanned_to_digital_pdf` as canvas operations, and `main`'s output path |
| `Calendar` | `calendar.dfy` | the part of `datetime` the scripts use |
| `Attendance` | `attendance.dfy` | `script/attendace.py`: the per-employee day loop with the cap of two days off per month |
| `AttendanceCreation` | `attendance_creation.dfy` | `script/attendace_creation.py`: distinct employees, salaries, attendance rows and the chunked insert |
| `Text`, `Wrappers` | `text.dfy`, `wrappers.dfy` | Python's `strip`, `find`, `join`, `split` and `lower`, and `Option` |

Foreign calls are parameters or fallible functions:

- the language model;
- the MySQL and sqlite drivers;
- OCRmyPDF, the PDF loaders, the text splitter and Chroma;
- Tesseract;
- Faker and `random`, which become streams of draws.

Where the source loops or updates state, the model is a method with loop
invariants. Each such method is proved equal to a recursive definition, and
the lemmas are proved about that definition.

The top-level `utils.py` holds an older copy of `extract_sql_query`
(`utils.py:102-115`) and of `format_query_result` (`utils.py:90-99`). Both
copies are the same as those in `src/utils.py`, so one definition serves
both files.

Two things about the source are worth knowing:

- `src/utils.py:67-68` repeats the line `def connect_database(...)`, so that
  file does not parse as written. The model takes the single intended
  definition, which is `ChatSession.Session.Connect`.
- Extraction has no stage for a bare `SELECT … ;`. Without a fence or a
  `SQL query:` tag, the trimmed text comes back
  (`SqlExtract.RawTextFallback`).

## Model

| member | source | states |
|---|---|---|
| SqlExtract.ExtractSql | src/utils.py:108-120 | the result never starts or ends with whitespace, and it is always a contiguous piece of the input |
| SqlExtract.AfterThink | src/utils.py:109-111 | the text the stages see is a suffix of the reply |
| SqlExtract.ThinkPrefixDiscarded | src/utils.py:109-111 | for `a + "</think>" + b`, where `a` holds no `</think>`, the result depends on `b` alone |
| SqlExtract.NoThinkKeepsText | src/utils.py:109-111 | without `</think>` the whole reply goes to the stages |
| SqlExtract.FencedBlockFirst | src/utils.py:112 | the fenced block opens at the first ```` ```sql ```` (any case) and closes at the first ```` ``` ```` after it; there is no block exactly when no opening has a closing fence after it |
| SqlExtract.FencedBlockWins | src/utils.py:112-114 | given such a block, the result is the text between the fences, trimmed, whatever else the text holds |
| SqlExtract.UnclosedFenceIsNoBlock | src/utils.py:112-113 | an opening fence with no closing fence after it is no match, so the later stages run |
| SqlExtract.FirstStatementFirst | src/utils.py:116 | the labelled-statement search finds the leftmost match, and finds nothing only when the pattern matches nowhere |
| SqlExtract.LabelledStatementWins | src/utils.py:116-118 | with no fenced block, the first `SQL query:` tag followed by whitespace and `SELECT ` yields the text from `SELECT` through the first `;` after it |
| SqlExtract.StatementShape | src/utils.py:116-118 | the labelled stage always returns `SELECT ` (any case), then text without `;`, then one final `;` |
| SqlExtract.RawTextFallback | src/utils.py:120 | with neither a fence opening nor a `SQL query:` tag, the result is the whole text, trimmed |
| SqlExtract.FencedRoundTrip | src/utils.py:176-178 | take an answer that shows a trimmed statement in a ```` ```sql ```` fence, with no fence inside the statement and no `</think>`; extraction gives that statement back |
| Text.StripMiddle | src/utils.py:120 | `strip()` gives the middle of its input, between two whitespace runs; the result is empty exactly when the input is all whitespace |
| Text.FindFirst | src/utils.py:109 | `find` returns the first occurrence at or after the start, or nothing when there is none |
| QueryResult.FormatQueryResult | src/utils.py:97-105 | the loop builds exactly `Table(rows)`: the no-results notice for no rows; otherwise the title, the header, the separator and one line per row |
| QueryResult.TableLinesInOrder | src/utils.py:100-105 | when no name or cell holds a newline, the text splits into the title, a blank line, the header of the first row's keys, the separator, and one `\| … \|` line per row in input order |
| QueryResult.HeaderAndSeparatorAlign | src/utils.py:102 | the separator has one `---` cell per header cell |
| QueryResult.TableRow | src/utils.py:102-105 | when no name or cell holds a newline, the text has `\|rows\| + 5` lines, and line `4 + i` is `"\| "`, then `str()` of row `i`'s values joined by `" \| "`, then `" \|"` |
| QueryResult.TableLineBars | src/utils.py:102-104 | a table line over `n` cells that hold no `\|` has `n + 1` bars, and two when there are no cells |
| QueryResult.PreambleLines | src/utils.py:102 | the preamble is four newline-terminated lines |
| ChatSession.Session.RunQuery | src/utils.py:85-94 | never rows and an error together; without a database it gives the connect-first notice; rows are what the database returned; a driver error gives the prefixed message |
| ChatSession.Session.Connect | src/utils.py:67-82 | a successful connection sets the handle and empties the history; a failed one changes nothing |
| ChatSession.Session.Respond | src/utils.py:123-178 | the prompt carries the history as it was before the question; the history grows by exactly the user entry and then the assistant entry; the answer is the fenced statement followed by the error or the table |
| ChatSession.Session.constructor | src/utils.py:124-125 | a fresh session has no database and an empty history |
| ChatSession.ExchangeKeepsAlternation | src/utils.py:169-173 | every question adds two entries, user first, so the history keeps alternating |
| ChatSession.HistoryUsesLastFour | src/utils.py:160 | entries older than the last four never reach the prompt |
| ChatSession.PromptWindowStartsWithUser | src/utils.py:160 | in an alternating history, the four-entry window holds whole exchanges, starting with a user entry |
| ChatSession.ContextMessages | src/utils.py:130-136 | the message list is empty without `maintain_context`; otherwise there is one message per entry of the last five, a human message exactly for a user entry |
| ChatSession.LastN | src/utils.py:132 | `h[-n:]` is the last `n` entries, or all of them when there are fewer |
| LegacyUtils.RunQuery | utils.py:78-87 | the text is never empty; it starts with the warning sign exactly when there is no database, and with the cross exactly for a driver error, whose message follows the `❌ Error executing query: ` prefix; otherwise it is a table or the no-results notice |
| LegacyUtils.EmptyResultNotice | utils.py:82-84 | the text is `ℹ️ No results found.` exactly when the query ran and returned no rows; no table, warning or driver error reads like it |
| LegacyUtils.GetLlmResponse | utils.py:118-143 | the answer opens with the extracted statement in a ```` ```sql ```` fence, the statement that ran, and goes on with `run_query`'s non-empty text |
| LegacyUtils.AnswerShowsStatement | utils.py:136-143 | extraction reads the statement that ran back out of the assembled answer, when the statement holds no fence and the answer no `</think>` |
| SchemaFetch.GetDatabaseMetadata | src/schema_fetch.py:17-103 | the loop over tables returns exactly `Metadata(server)`; the two results are both present or both absent |
| SchemaFetch.AppendColumnLines | src/schema_fetch.py:54-60 | the column loop appends one line per column, in order |
| SchemaFetch.AppendIndexSection | src/schema_fetch.py:62-69 | with index entries, the loop appends `INDEXES:` and then one line per non-`PRIMARY` entry; with none, it appends nothing |
| SchemaFetch.AppendRelationshipSection | src/schema_fetch.py:86-92 | with foreign keys, the loop appends `RELATIONSHIPS:` and then one `col → table.col` line per key, in order; with none, it appends nothing |
| SchemaFetch.DdlInTableOrder | src/schema_fetch.py:34-41 | on success there is one DDL text per table; the `i`-th is the `i`-th table's `Create Table` value |
| SchemaFetch.DdlAt | src/schema_fetch.py:37-41 | on success, the `i`-th table's `SHOW CREATE TABLE` did not fail, and its text is the `i`-th DDL text |
| SchemaFetch.ColumnMarkers | src/schema_fetch.py:54-60 | a column line ends in ` NOT NULL` exactly when `Null` is `NO`; before that marker it ends in `PK` exactly for key `PRI` and in `FK` exactly for key `MUL`, never both |
| SchemaFetch.UniqueMarker | src/schema_fetch.py:68 | an index line ends in ` (UNIQUE)` exactly when `Non_unique` is 0 |
| SchemaFetch.IndexLinesSkipPrimary | src/schema_fetch.py:64-69 | every listed line comes from a non-`PRIMARY` entry, and every non-`PRIMARY` entry is listed |
| SchemaFetch.PrimaryOnlyHeader | src/schema_fetch.py:62-65 | when every entry is `PRIMARY`, the `INDEXES:` header still appears, with nothing under it |
| SchemaFetch.SectionHeaders | src/schema_fetch.py:62-92 | a table block contains `INDEXES:` exactly when there are index entries, and `RELATIONSHIPS:` exactly when there are foreign keys |
| SchemaFetch.FailureSticks | src/schema_fetch.py:37-103 | once one table fails, the whole result fails |
| SchemaFetch.NeverPartial | src/schema_fetch.py:98-103 | never a partial pair; a failed connection or a failure at any table gives `(None, None)` |
| ChatPdf.NonBlank | src/pdf_util.py:95 | the kept chunks all have non-whitespace content and come from the input; every such input chunk is kept |
| ChatPdf.AllBlankDropped | src/pdf_util.py:95 | whitespace-only chunks are all dropped |
| ChatPdf.IngestStoresContent | src/pdf_util.py:88-106 | a successful ingestion stores at least one chunk, none of them blank: the filtered split of the loaded documents, with the 512/128 splitter |
| ChatPdf.IngestSucceeds | src/pdf_util.py:80-106 | ingestion succeeds exactly when the loaded documents are indexable: some pages, a split that keeps a chunk with content, and a store Chroma builds; it then stores the non-blank chunks |
| ChatPdf.OcrFallback | src/pdf_util.py:66-77 | when OCR fails, ingestion indexes the original file: it succeeds exactly when that file's documents are indexable, and it stores their non-blank chunks |
| ChatPdf.LoaderFallback | src/pdf_util.py:80-86 | when PyPDFLoader raises, ingestion succeeds exactly when UnstructuredPDFLoader's documents are indexable, and it stores their non-blank chunks |
| ChatPdf.NothingToIndex | src/pdf_util.py:88-98 | no documents gives the empty-PDF error; a split into whitespace-only chunks gives the no-content error |
| ChatPdf.ChatPDF.constructor | src/pdf_util.py:27-59 | a fresh instance has no vector store, retriever or chain |
| ChatPdf.ChatPDF.Ingest | src/pdf_util.py:61-127 | returns true exactly when every stage succeeds; then the store, the MMR retriever (k 5, fetch_k 20, lambda 0.5) over it and the chain on it are set; on failure all three fields keep their old values |
| ChatPdf.ChatPDF.Ask | src/pdf_util.py:129-146 | the checks run in this order: no chain, a blank question, a failed or empty retrieval; only then is the chain asked the stripped question; any failure gives the generic error text |
| ChatPdf.ChatPDF.Clear | src/pdf_util.py:148-152 | all three fields are empty again, as in a fresh instance |
| ScannedPdf.HasTextIsStripped | src/scanned_pdf_util.py:17 | `page.get_text().strip()` is truthy exactly when the page has a non-whitespace character |
| ScannedPdf.IsScannedPdf | src/scanned_pdf_util.py:11-18 | the loop returns what the code returns: true at the first page with text, otherwise nothing (`None`) |
| ScannedPdf.VerdictInverted | src/scanned_pdf_util.py:11-18 | the result is true exactly when some page has text, the opposite of the docstring, and it is never false |
| ScannedPdf.IsScannedPdfCorrected | src/scanned_pdf_util.py:12-13 | true exactly when no page has extractable text |
| ScannedPdf.DrawTextLayer | src/scanned_pdf_util.py:48-56 | the y-cursor loop issues exactly the declarative text layer: a page break and the font again before every 61st line after the first, and each stripped line at baseline `750 - 12 * (m mod 61)` |
| ScannedPdf.CursorStep | src/scanned_pdf_util.py:49-56 | the cursor falls below 20 exactly before every 61st line after the first, is reset to 750 there, and drops 12 per line |
| ScannedPdf.TextLayerDrawsEveryLine | src/scanned_pdf_util.py:48-55 | every OCR line is drawn, stripped and in split order, and nothing else is drawn |
| ScannedPdf.TextLayerOnPage | src/scanned_pdf_util.py:49-56 | every line is drawn at x = 40 with a baseline above 20 and at most 750 |
| ScannedPdf.TextLayerBreaks | src/scanned_pdf_util.py:51-54 | `n` lines take `(n - 1) / 61` page breaks, so at most 61 lines share a page |
| ScannedPdf.PageBreaks | src/scanned_pdf_util.py:41-58 | each page image adds one page, plus one more for every 61 OCR lines after the first |
| ScannedPdf.PageStrings | src/scanned_pdf_util.py:41-58 | a page image's operations draw exactly its stripped OCR lines |
| ScannedPdf.ScannedToDigitalPdf | src/scanned_pdf_util.py:21-61 | the loop over images issues one page per image, in order, then `save()` |
| ScannedPdf.PageTotal | src/scanned_pdf_util.py:31-58 | the document never has fewer canvas pages than page images |
| ScannedPdf.RenderingBreaks | src/scanned_pdf_util.py:31-60 | the whole document has one `showPage` per image plus one per 61 OCR lines after each image's first, so at least as many pages as images |
| ScannedPdf.RenderingStrings | src/scanned_pdf_util.py:31-60 | the whole document draws every image's stripped OCR lines, image after image, and no other text |
| ScannedPdf.LastIndex | src/scanned_pdf_util.py:68 | the index of the last occurrence of a character, or -1 when it does not occur |
| ScannedPdf.SplitExt | src/scanned_pdf_util.py:68 | root and extension concatenate back to the path; a non-empty extension starts with a dot and has no `/` and no other dot |
| ScannedPdf.PdfExtensionReplaced | src/scanned_pdf_util.py:68 | `name.pdf` gives `name_digital.pdf`, for any name that does not end in `/` or `.` |
| ScannedPdf.NoExtensionKept | src/scanned_pdf_util.py:68 | a last component with no dot after a non-dot character (`report`, `.pdf`) keeps its whole name before `_digital.pdf` |
| ScannedPdf.Convert | src/scanned_pdf_util.py:64-69 | a missing file writes nothing; otherwise the rendering goes to the splitext root plus `_digital.pdf` |
| Calendar.NextDay | script/attendace.py:59 | the next day is a valid date and comes later |
| Calendar.NextDayIsNext | script/attendace.py:59 | no valid date falls strictly between a date and its next day |
| Calendar.DatesFromConsecutive | script/attendace.py:35-59 | the loop visits its start date first, then each next day in turn, and only dates before the end |
| Calendar.DatesFromCovers | script/attendace.py:35-59 | every valid date from the start up to the end is visited |
| Attendance.AttendanceDay | script/attendace.py:36-51 | one day's status, counter update and draw, as `DayStep` defines them |
| Attendance.DayStepCounts | script/attendace.py:44-51 | one day moves its month's counter by one exactly when the status is not Present, and leaves every other month's counter alone |
| Attendance.EmployeeAttendance | script/attendace.py:32-59 | the day loop for one employee yields exactly that employee's run |
| Attendance.PopulateAttendance | script/attendace.py:31-59 | the outer loop yields the runs of all employees, one after another, sharing the draw stream |
| Attendance.PopulateQuarter | script/attendace.py:27-59 | the script over 2025-01-01 up to 2025-04-01 |
| Attendance.RunShape | script/attendace.py:35-59 | an employee gets exactly one row per date, for that employee, in date order |
| Attendance.OneRowPerDay | script/attendace.py:31-35 | an employee's rows are all theirs and have strictly increasing dates; every valid date from the start up to the end has a row, and no other date does |
| Attendance.NinetyDays | script/attendace.py:27-28 | the range holds 90 days |
| Attendance.CounterCountsOffs | script/attendace.py:46-51 | a month's counter ends at its start value plus that month's non-Present days |
| Attendance.MonthlyCap | script/attendace.py:44-51 | starting from a fresh counter, no month has more than two non-Present days, whatever the draws |
| Attendance.SaturatedMonthPresent | script/attendace.py:44 | once a month has two days off, every later day of that month is Present, whatever the draws |
| Attendance.FreshPerEmployee | script/attendace.py:33 | each employee's run starts from an empty `monthly_offs`; only the draw position carries over |
| Attendance.EveryEmployeeCapped | script/attendace.py:31-51 | every employee gets one row per date, for their id, and at most two days off in any month |
| Attendance.RowCount | script/attendace.py:31-59 | the script inserts (employees × days) rows |
| AttendanceCreation.RandInt | script/attendace_creation.py:79-80 | `randint(a, b)` lies in `[a, b]` |
| AttendanceCreation.DrawEmployee | script/attendace_creation.py:73-82 | one pass of the loop: a repeated `"first last"` key adds nothing; otherwise the key is recorded and the next employee's row is appended |
| AttendanceCreation.GenerateEmployees | script/attendace_creation.py:69-82 | the loop stops with exactly 500 rows, the employees of the first draw count that gives 500 distinct keys |
| AttendanceCreation.HireStep | script/attendace_creation.py:73-82 | a draw whose key was seen leaves the rows as they are; any other draw appends the row built from that name |
| AttendanceCreation.DuplicateSkipped | script/attendace_creation.py:75-76 | a draw whose key was drawn before adds nobody |
| AttendanceCreation.UniqueKeys | script/attendace_creation.py:69-77 | the keys of the names taken on are exactly the keys drawn so far, which is `unique_names` |
| AttendanceCreation.UniqueDistinct | script/attendace_creation.py:72-77 | no two names taken on share a `"first last"` key |
| AttendanceCreation.UniqueGrows | script/attendace_creation.py:72-77 | more draws never take on fewer names |
| AttendanceCreation.HireNames | script/attendace_creation.py:72-82 | every employee's name was drawn, and no two employees share a `"first last"` key |
| AttendanceCreation.HireFields | script/attendace_creation.py:78-82 | every e-mail is `lower(first).lower(last)@example.com`; department and role ids lie in 1..8; the `i`-th employee has the `i`-th Faker hire date |
| AttendanceCreation.ShortBelow | script/attendace_creation.py:72 | before the loop stops, every earlier draw count had fewer than 500 employees |
| Text.Lower | script/attendace_creation.py:78 | `lower()` leaves no capital letter, moves A–Z down to a–z, and keeps every other character |
| AttendanceCreation.GenerateSalaries | script/attendace_creation.py:91-95 | one salary per id 1..500, in order, each within [30000, 120000], with its Faker date |
| AttendanceCreation.StatusBuckets | script/attendace_creation.py:113 | with weights 85/5/5/5, a draw in [0, 1) gives Present below 0.85, Absent below 0.90, Remote below 0.95, and Leave otherwise |
| AttendanceCreation.LastDayIsToday | script/attendace_creation.py:104-106 | when today is not before 2025-01-01, the last of the `days` dates is today |
| AttendanceCreation.GenerateAttendance | script/attendace_creation.py:109-114 | the nested loops yield the blocks of employees 1..500 in order; row `i` of each block is day `i` with the status of its draw |
| AttendanceCreation.AllBlocks | script/attendace_creation.py:109-114 | there are 500 × days attendance rows |
| AttendanceCreation.ConsecutiveDays | script/attendace_creation.py:111-112 | an employee's rows start on 2025-01-01 and move on one day at a time |
| AttendanceCreation.ChunkedInsert | script/attendace_creation.py:117-123 | there are `ceil(len / 10000)` batches; batch `j` is the slice at `10000 j`; concatenated, the batches are the records in order, so each is inserted once |
| AttendanceCreation.BatchSizes | script/attendace_creation.py:117-122 | every batch holds 1 to 10000 rows, and all but the last hold exactly 10000 |

## Left out

- I/O is not modelled: the MySQL and sqlite connections, cursors, commits and closes, file existence, and the written PDF file. A database is what it returns per statement (`Driver.Database`, `SchemaFetch.Server`). The insert statements are the record sequences the scripts build.
- The language model, the prompt templates, `LLMCallbackHandler`'s JSON log, `load_config` and Streamlit (`st.success`, `st.error`, `src/app.py`) are not modelled. The model's reply is a function parameter.
- `st.session_state` is the `ChatSession.Session` class. The test `"db" in st.session_state and st.session_state.db` becomes `db.Some?`, because a stored `(connection, cursor)` pair is always truthy.
- ChatSession.Session.Connect: the driver's `connect` call and `int(port)`, which can raise `ValueError` outside the `mysql.connector.Error` handler, are folded into one `attempt` parameter.
- LegacyUtils: `connect_database` in the top-level `utils.py` only sets the handle, and `LegacyUtils` takes that handle as a parameter.
- ChatSession.Session.Respond: the `context_messages` list is computed (`ContextMessages`) and then discarded, as in the source.
- ChatSession.Session.Respond: the assistant entry shows Python's `repr` of the rows. That repr is abstracted as each value's `repr` string in a `{'key': value}` layout. Float, date and escaping details of `repr` are not modelled.
- SqlExtract: the two regular expressions are modelled by their leftmost-match meaning for these two fixed patterns, not by a general regex engine.
- SqlExtract: `IGNORECASE` matching is case-insensitive on ASCII letters; for the letter `s` it also accepts `ſ` (U+017F).
- Text.Lower: models `str.lower()` on ASCII letters only; other scripts' case mappings are left out.
- SchemaFetch: the `print` of the error and the `finally` clause that closes the cursor and connection are left out.
- SchemaFetch: `SHOW TABLES` rows are given as table names. A missing `SHOW CREATE TABLE` row is a raised reply, since `fetchone()` returns `None` and indexing it raises.
- ChatPdf: logging, the temporary directory's lifetime and `filter_complex_metadata` are left out. The splitter call includes the metadata filter.
- ChatPdf: the chain's prompt and model are opaque. `Ask` takes the retriever's search and the chain's answer as fallible functions.
- ScannedPdf: the image bytes, the PNG round trip through `BytesIO`, the canvas file and the two `print` calls are left out. The canvas is the sequence of operations it receives.
- ScannedPdf.Convert: `os.path.exists` is a boolean parameter. `os.path.splitext` is modelled for POSIX paths only.
- AttendanceCreation.StatusBuckets: `random.choices` multiplies `random()` by the weight total in floating point, and the model multiplies reals. The rounded product can land on a bucket boundary the real product misses: the double nearest 0.85 gives `Absent` in Python but `Present` in the model, and likewise at 0.95 (`Leave` versus `Remote`).
- Attendance: `random.random()` values are a stream of reals, and the comparisons with 0.05 and 0.10 are exact. Float rounding is not modelled. The employee ids are a parameter, since they come from `SELECT employee_id`.
- AttendanceCreation: the `CREATE TABLE` script and the department and role inserts are left out. The two lists are the constants `Departments` and `Roles`.
- AttendanceCreation: Faker's names and dates, `randint`'s draws and `random.random()`'s draws are four separate streams. In the script, Faker has one generator and `random` another. The fixed seeds, and the `-3y`/`-2y` date ranges, are not modelled, so hire and salary dates are opaque strings.
- AttendanceCreation.GenerateSalaries: where the salary draws start in the `randint` and Faker streams is a parameter. The model does not count the employee loop's draws.
- AttendanceCreation.GenerateEmployees: requires a ghost bound on the number of name draws within which 500 distinct keys occur. Without one the script never ends, and the model does not represent non-termination.
- AttendanceCreation: the sqlite `email UNIQUE` constraint is not modelled. Two names that differ only in letter case would give the same e-mail and make the insert fail.
- AttendanceCreation: `days` comes from `datetime.now()`. The clock is the parameter `today` of `DayCount`, and dates are `Calendar.Date` values, not `strftime` strings.

## Findings

| source | as written | input that shows it | evidently intended | confidence | as-written member | corrected member |
|---|---|---|---|---|---|---|
| src/scanned_pdf_util.py:11-18 | returns `True` at the first page whose text is not all whitespace, and falls off the end (`None`) when no page has text | a one-page PDF whose page text is `Hello` gives `True`, yet it is digital; a one-page PDF with an empty page gives `None`, yet it is scanned | `True` exactly when no page has extractable text, as the docstring says, and `False` otherwise | not executed | ScannedPdf.IsScannedPdf (with ScannedPdf.VerdictInverted, ScannedPdf.DigitalPageCounterexample, ScannedPdf.BlankPageCounterexample) | ScannedPdf.IsScannedPdfCorrected |
