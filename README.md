# personaldb `/query` dispatcher, modelled in Dafny

personaldb is a small HTTP front end to an SQLite database. A request to
`/query` carries a batch of SQL statements separated by `;`. The handler
splits the body at every `;`. It asks the driver whether each statement is
read-only, in order. A read-only statement is run as a query: one line of
column names, then one line per row, with `\N` for a null cell. Any other
statement is executed, and its result summary is written as one line. The
first error stops the batch, and the handler passes it to `http.Error`.

The model has seven modules:

- `Wrappers` (`wrappers.dfy`): `Option` and `Result`.
- `Text` (`text.dfy`): bytes (`newtype byte`), Go's `strings.Split` and
  `strings.Join` for a one-byte separator, and their round trips.
- `Render` (`render.dfy`): cell rendering with the null sentinel, Go's `%s`
  of a `[]string` (`[`, cells joined by one space, `]`), and the stream of
  newline-terminated lines.
- `Driver` (`driver.dfy`): the database as three oracles (`Engine<D>`) over
  an abstract database state `D`, the read-only classifier `isRO` as the
  method `IsReadOnly`, and `rows.Scan` into the in-place cell buffer.
- `Response` (`response.dfy`): the `http.ResponseWriter` as a class with
  net/http's status rule. The first `Write` fixes status 200 unless a status
  was already set, and a later `WriteHeader` has no effect.
- `Dispatch` (`dispatch.dfy`): the specification functions `RowsOutput`,
  `QueryStep`, `Step`, `Run` and `Batch`, the lemmas about them, and the
  imperative dispatcher (`RunInput`, `RunStatements`, `DispatchStatement`,
  `StreamRows`, `RenderRow`). Each method is proved against those functions.
- `Http` (`http.dfy`): the `/query` routing check, the handler as written,
  and the corrected handler of the finding below.

The driver calls are parameters, through an `Engine<D>` value:

- `probe`: the outcome of `db.Conn`, `Prepare` and `Readonly()` for one
  statement text.
- `query`: `db.Query` together with `rows.Columns()` and the rows that
  `rows.Next()` yields.
- `exec`: `db.Exec`, giving the new database state and the summary text.

Threading `D` through `exec` makes statement order observable. An earlier
mutation changes what later statements see. The request body is a `Result`, because reading it can
fail (`ioutil.ReadAll`).

The documented behaviour differs from the code in two places. The model
follows the code in both:

- Cells are separated by single spaces, as Go's `%s` prints a slice, and not
  by commas.
- An error does not always give status 500 (see Findings).

## Model

| member | source | states |
|---|---|---|
| Text.Split | main.go:87 | splitting at `;` gives exactly (number of `;` in the body) + 1 fragments, empty leading and trailing ones included, and no fragment contains `;` |
| Text.JoinSplit | main.go:87 | joining the fragments back with `;` reproduces the body exactly |
| Text.SplitJoin | main.go:87 | splitting a join of `;`-free parts gives the parts back, so the split is the unique `;`-free decomposition of the body |
| Render.RenderCell | main.go:128-132 | defines a cell's text: `\N` for null, the raw bytes otherwise; its properties are in `Render.CellRendering` |
| Render.RenderLine | main.go:110-142 | defines one output line: `%s` of a cell slice (`[`, cells joined by a space, `]`) for the header and row lines (110, 134), the summary text for a mutation (142); its properties are in `Render.CellsLine` |
| Render.Stream | main.go:89-144 | defines the bytes written for a sequence of lines, each followed by a newline; its properties are in `Render.StreamAppend` and `Render.StreamLines` |
| Render.CellRendering | main.go:127-133 | a null cell renders as the two bytes `\` `N`, a non-null cell as its raw bytes unchanged; two cells render alike only if equal or both are among null and the text `\N` |
| Render.CellsLine | main.go:110 | a cell line is `[`, the cells joined by one space, `]`; when no cell holds a space, the text between the brackets splits back into exactly the cells |
| Render.StreamAppend | main.go:89-144 | the bytes written by consecutive lines are the concatenation of each line's bytes |
| Render.StreamLines | main.go:110-142 | when no rendered line contains a newline, splitting the output at newlines gives the rendered lines in order, then one empty fragment (each line is newline-terminated) |
| Driver.Classification | main.go:48-71 | defines what `isRO` answers for each probe: the error of `db.Conn` or `Prepare`, `stmt is nil`, or the prepared statement's flag; `Driver.IsReadOnly` is proved to answer it |
| Driver.IsReadOnly | main.go:48-71 | the classifier never answers read-only together with an error; it has no error exactly when the statement was prepared, and then it answers the statement's own read-only flag |
| Driver.CellOf | main.go:122 | defines the cell a scannable value is stored as: nil for NULL, its bytes otherwise; `Driver.ConvertAll` states how rows use it |
| Driver.ConvertAll | main.go:122 | storing a row's values succeeds exactly when no value is unscannable, and then gives the cells in column order; otherwise it fails with the first unscannable value's error |
| Driver.ScanRow | main.go:122 | a successful scan gives exactly as many cells as there are destinations |
| Driver.Scan | main.go:116-125 | the buffer is overwritten in place: on success it holds the scanned row; on an arity error it is unchanged; on a conversion error the cells before the failing column are stored and the rest are untouched |
| Dispatch.RowsOutput | main.go:120-135 | defines the row loop's lines and the scan error that ends it; its properties are in `Dispatch.RowLines`, and `Dispatch.StreamRows` is proved to write it |
| Dispatch.QueryStep | main.go:95-136 | defines the read-only path: query error, columns error, zero columns skipped, header line, then the row lines; its properties are in `Dispatch.StepRoutes` (the `db.Query` and `rows.Columns()` error exits), `Dispatch.ReadOnlyBlock` and `Dispatch.ZeroColumnsSkipped` |
| Dispatch.Step | main.go:91-143 | defines one statement's lines and outcome: classify, then the read-only path or `db.Exec`; its properties are in `Dispatch.StepRoutes`, and `Dispatch.DispatchStatement` is proved to perform it |
| Dispatch.RowLines | main.go:120-135 | row line k is row k scanned and rendered; every row gets a line unless a scan fails, and then the loop ends with the scan error of the first row without a line |
| Dispatch.RenderRow | main.go:127-133 | every cell of the `result` buffer is overwritten with the rendering of the scanned cell at the same index |
| Dispatch.StreamRows | main.go:113-135 | the row loop writes exactly the row lines of `RowLines` and returns the scan error that ended it, if any |
| Dispatch.ReadOnlyBlock | main.go:95-136 | a read-only statement with n > 0 columns writes one header line of the column names, then one line of exactly n rendered cells per scanned row; it completes exactly when every row scans, passing the database on as it received it (an assumption of the model, see Left out), and otherwise aborts with the failing row's scan error |
| Dispatch.ZeroColumnsSkipped | main.go:105-108 | a read-only statement whose result has no columns writes nothing, and the batch continues as if the statement were absent |
| Dispatch.StepRoutes | main.go:91-143 | a classifier error, a `db.Query` error or a `rows.Columns()` error writes nothing and aborts with that error (main.go:92-94, 98-104); a statement that is not read-only writes exactly one summary line and moves to the database `db.Exec` left, or writes nothing and aborts when `db.Exec` fails |
| Dispatch.DispatchStatement | main.go:91-143 | one turn of the loop writes exactly the statement's lines and ends as its step does |
| Dispatch.Run | main.go:89-145 | defines the dispatch loop over the statements, stopping at the first error; its properties are in `Dispatch.RunAppend`, `Dispatch.AbortedAt` and `Dispatch.AbortIgnoresRest`, and `Dispatch.RunStatements` is proved to perform it |
| Dispatch.RunAppend | main.go:89-144 | statements run strictly in input order: the run of a + b is the run of a followed, unless a aborted, by the run of b on the database a left, and the lines concatenate in that order |
| Dispatch.AbortedAt | main.go:89-145 | an aborted batch stopped at some statement k: every earlier statement completed, k's own step gave the batch's error, and the output is the earlier lines followed by what k wrote before failing |
| Dispatch.AbortIgnoresRest | main.go:92-141 | once a batch has aborted, appending any further statements changes neither its lines nor its error |
| Dispatch.RunStatements | main.go:89-145 | the dispatch loop writes the lines of `Run` over the statements and returns its outcome: the new database, or the first error |
| Dispatch.Batch | main.go:82-146 | defines `runInput`: a body read error aborts, otherwise `Run` over the body split at `;`; `Dispatch.RunInput` is proved to perform it |
| Dispatch.RunInput | main.go:82-146 | `runInput` aborts with the read error when the body cannot be read, and otherwise runs the split body; it writes its lines to the response in order |
| Http.HttpError | main.go:150 | `http.Error` sets the status only when none is fixed yet, and appends the text and a newline |
| Http.Served | main.go:76-151 | defines the answer as written: 404 off `/query`, the streamed lines, and on abort `http.Error` after them; its properties are in `Http.LateErrorAnswersOk`, and `Http.Handle` is proved to give it |
| Http.Handle | main.go:76-151 | the handler answers a path other than `/query` with 404 `not found`; otherwise it answers with the streamed batch, followed by the error text when the batch aborted |
| Http.LateErrorAnswersOk | main.go:148-151 | as written, an aborted batch gets status 500 exactly when it had written no line; its body is its lines followed by the error text |
| Http.LateErrorExample | main.go:148-151 | the body `x;y`, where `x` is a read-only query streaming two lines and `y` fails to prepare, aborts and is still answered with status 200, body `[x]`, `[1]` and the error text |
| Http.Intended | main.go:148-151 | defines the corrected answer: 500 with only the error text on abort, 200 with the lines otherwise; its properties are in `Http.IntendedErrorIs500`, and `Http.HandleBuffered` is proved to give it |
| Http.HandleBuffered | main.go:148-151 | the corrected handler buffers the batch and answers as `Intended` |
| Http.IntendedErrorIs500 | main.go:148-151 | corrected: the status is 500 exactly when the batch aborted, and the body is then only the error text; a completed batch gets 200 and its lines |
| Http.TrailingSeparator | main.go:87-108 | for `q;`, where `q` contains no `;` and completes, and the engine treats the empty statement as read-only with no columns, the answer is 200 with `q`'s lines alone |

## Left out

- Process and server lifecycle are not modelled: `main`, `run`, flag parsing, `sql.Open`, `ListenAndServe` and waiting for SIGTERM (main.go:23-47, 73-75, 155-159). They are I/O and concurrency plumbing.
- The SQLite driver and `database/sql` are oracles, not models. This covers `Prepare` and `Readonly()`, `db.Query`, `rows.Columns()`, `rows.Next()`, the conversion of a driver value into the `[]byte` destinations (main.go:113-119), and `db.Exec`. Which statement is read-only, and which fails, is whatever the engine answers.
- The text of a mutation summary is opaque bytes from the exec oracle. It is `fmt`'s rendering of a driver `sql.Result`.
- An error inside `rows.Next()` ends the row loop like the end of the rows, because `rows.Err()` is never consulted. The oracle's row sequence simply ends there.
- Releasing resources is not modelled: the deferred `c.Close()` and `rows.Close()` (main.go:50, 97), and the prepared statement of the classifier, which is never closed.
- The nil-handle panics are not modelled. The deferred `c.Close()` (main.go:49-50) and `rows.Close()` (main.go:96-97) are registered before their error checks and run at return. When `db.Conn` fails, `c` is a nil `*sql.Conn`; when `db.Query` fails, `rows` is a nil `*sql.Rows`. Closing either panics as the function returns, so the real handler never reaches `http.Error` on those paths, and net/http drops the connection. On those two paths the answer of `Handle` and `Served` (an ordinary abort with the error) is the model's, not the program's.
- Read-only statements are assumed to leave the database as it was. This is not true of every statement SQLite flags read-only: `BEGIN`, `COMMIT`, `ROLLBACK`, `SAVEPOINT`, `RELEASE`, `ATTACH` and `DETACH` take the read path (main.go:95) and can change what later statements see. Their effect is not modelled because each `db.Query` and `db.Exec` may run on a different pooled connection of `database/sql`, and the pool is not part of this model. The clause of `ReadOnlyBlock` that a completed read-only statement passes the database on unchanged follows from this assumption, not from a proof.
- The database after an abort is not modelled: an aborted batch carries only its error, so the model does not state which earlier mutations stay applied.
- Concurrency across requests on the shared `db` handle is not modelled.
- The response writer has no buffering, flushing or headers other than the status. Only the status and the body bytes are modelled.
- Scan errors are reduced to the arity check and one error per unscannable value. The wording `database/sql` gives a conversion error is whatever the value's error carries.

## Findings

| source | as written | input that shows it | evidently intended | confidence | as-written member | corrected member |
|---|---|---|---|---|---|---|
| main.go:148-151 | `http.Error(w, err.Error(), 500)` is called after the dispatcher may already have written lines. The first write fixed status 200, so the 500 is ignored and the error text is appended to the streamed output. | A body such as `SELECT 1 AS x;bogus`: the first statement streams `[x]` and `[1]`, the second fails to prepare. The answer is 200 with `[x]`, `[1]` and the error text. | a failed batch answers with status 500 and the error text as its body | medium; not executed | Http.LateErrorExample | Http.HandleBuffered |
