/**
 * The HTTP handler around the dispatcher: the `/query` routing check, and
 * how the dispatcher's error reaches the client through `http.Error`.
 */
module Http {
  import opened Wrappers
  import opened Text
  import opened Render
  import opened Driver
  import opened Response
  import opened Dispatch

  const STATUS_NOT_FOUND: nat := 404
  const STATUS_INTERNAL_SERVER_ERROR: nat := 500

  const QUERY_PATH: Bytes := Ascii("/query")
  const NOT_FOUND: Bytes := Ascii("not found")

  /** What the client receives: the status and the body. */
  datatype Answer = Answer(status: nat, body: Bytes)

  /** `http.Error(w, text, code)`: set the status, then write the text and a newline. */
  method HttpError(w: ResponseWriter, text: Bytes, code: nat)
    modifies w
    ensures w.header == if old(w.header).None? then Some(code) else old(w.header)
    ensures w.body == old(w.body) + text + [NEWLINE]
  {
    w.WriteHeader(code);
    w.Write(text + [NEWLINE]);
  }

  /**
   * The answer of the handler as written: any path but `/query` is not
   * found; otherwise the batch's lines are streamed, and an error then adds
   * its text as a last line, with status 500 only when nothing was written
   * before it.
   */
  function Served<D>(e: Engine<D>, db: D, path: Bytes, request: Result<Bytes, Error>): Answer
  {
    if path != QUERY_PATH then Answer(STATUS_NOT_FOUND, NOT_FOUND + [NEWLINE])
    else
      var t := Batch(e, db, request);
      match t.outcome
      case Done(_) => Answer(STATUS_OK, Stream(t.lines))
      case Aborted(err) =>
        Answer(if t.lines == [] then STATUS_INTERNAL_SERVER_ERROR else STATUS_OK,
               Stream(t.lines) + Message(err) + [NEWLINE])
  }

  /** The handler as written, on a fresh response writer. */
  method Handle<D>(e: Engine<D>, db: D, path: Bytes, request: Result<Bytes, Error>, w: ResponseWriter)
    requires w.header.None? && w.body == []
    modifies w
    ensures Answer(w.Status(), w.body) == Served(e, db, path, request)
  {
    if path != QUERY_PATH {
      HttpError(w, NOT_FOUND, STATUS_NOT_FOUND);
      return;
    }
    var outcome := RunInput(e, db, request, w);
    ghost var lines := Batch(e, db, request).lines;
    assert w.body == Stream(lines);
    if outcome.Aborted? {
      AppendAssoc(Stream(lines), Message(outcome.err), [NEWLINE]);
      HttpError(w, Message(outcome.err), STATUS_INTERNAL_SERVER_ERROR);
    }
  }

  /**
   * As written, a batch that fails after it has written a line is answered
   * with status 200: the `WriteHeader(500)` inside `http.Error` comes after
   * the first write and has no effect, and the error text is appended to the
   * body as one more line. Only a failure before any output gives 500.
   */
  lemma LateErrorAnswersOk<D>(e: Engine<D>, db: D, request: Result<Bytes, Error>)
    requires Batch(e, db, request).outcome.Aborted?
    ensures var t := Batch(e, db, request); var a := Served(e, db, QUERY_PATH, request);
      (a.status == STATUS_INTERNAL_SERVER_ERROR <==> t.lines == []) &&
      a.body == Stream(t.lines) + Message(t.outcome.err) + [NEWLINE]
  {
  }

  /** An engine for the example below: the statement `x` stands for a
      read-only query with one column `x` holding one row `1` (such as
      `SELECT 1 AS x`); every other statement, such as `y`, fails to
      prepare. */
  function ExampleEngine(): Engine<int>
  {
    Engine(
      (d: int, s: Bytes) => if s == [0x78] then Prepared(true) else Rejected(Failed([0x3F])),
      (d: int, s: Bytes) => Success(Rows(Success([[0x78]]), [[Data([0x31])]])),
      (d: int, s: Bytes) => Failure(Failed([0x3F])))
  }

  /**
   * The body `x;y`: the statement `x` streams `[x]` and `[1]`, then `y` fails
   * to prepare; the batch aborted, yet the answer is 200.
   */
  lemma LateErrorExample()
    ensures Batch(ExampleEngine(), 0, Success([0x78, SEMICOLON, 0x79])).outcome == Aborted(Failed([0x3F]))
    ensures Served(ExampleEngine(), 0, QUERY_PATH, Success([0x78, SEMICOLON, 0x79])) ==
      Answer(STATUS_OK, [LBRACKET, 0x78, RBRACKET, NEWLINE, LBRACKET, 0x31, RBRACKET, NEWLINE, 0x3F, NEWLINE])
  {
    var e, x, y := ExampleEngine(), [0x78 as byte], [0x79 as byte];
    SplitJoin([x, y], SEMICOLON);
    assert Join([x, y], SEMICOLON) == [0x78, SEMICOLON, 0x79] by {
      assert [x, y][1..] == [y];
    }
    var first := Step(e, 0, x);
    ExampleFirstStatement();
    assert [x, y][..1] == [x];
    assert [x][..0] == [];
    assert Run(e, 0, [x]) == first;
    assert Step(e, 0, y) == Trace([], Aborted(Failed([0x3F])));
    assert Run(e, 0, [x, y]) == Trace(first.lines, Aborted(Failed([0x3F])));
    ExampleStream();
  }

  lemma ExampleStream()
    ensures Stream([Cells([[0x78]]), Cells([[0x31]])]) ==
      [LBRACKET, 0x78, RBRACKET, NEWLINE, LBRACKET, 0x31, RBRACKET, NEWLINE]
  {
    var lines := [Cells([[0x78 as byte]]), Cells([[0x31]])];
    assert lines[1..] == [Cells([[0x31]])];
    assert lines[1..][1..] == [];
  }

  lemma ExampleFirstStatement()
    ensures Step(ExampleEngine(), 0, [0x78]) == Trace([Cells([[0x78]]), Cells([[0x31]])], Done(0))
  {
    var rows := [[Data([0x31])]];
    assert ConvertAll(rows[0][1..]) == Success([]) by {
      assert rows[0][1..] == [];
    }
    assert !rows[0][0].Unscannable? && CellOf(rows[0][0]) == Some([0x31]);
    assert [CellOf(rows[0][0])] + [] == [Some([0x31])];
    assert ConvertAll(rows[0]) == Success([Some([0x31])]);
    assert RenderCells([Some([0x31])]) == [[0x31]];
    assert rows[..0] == [];
    assert RowsOutput(1, rows).lines == [Cells([[0x31]])];
  }

  /**
   * The answer the handler is meant to give: the streamed lines with
   * status 200 when the batch completes, and status 500 with the error's text
   * as the whole body when it aborts.
   */
  function Intended<D>(e: Engine<D>, db: D, path: Bytes, request: Result<Bytes, Error>): Answer
  {
    if path != QUERY_PATH then Answer(STATUS_NOT_FOUND, NOT_FOUND + [NEWLINE])
    else
      var t := Batch(e, db, request);
      match t.outcome
      case Done(_) => Answer(STATUS_OK, Stream(t.lines))
      case Aborted(err) => Answer(STATUS_INTERNAL_SERVER_ERROR, Message(err) + [NEWLINE])
  }

  /**
   * The handler corrected: the batch runs into a buffer, which is sent only
   * when the batch completes, so that an abort can still set status 500.
   */
  method HandleBuffered<D>(e: Engine<D>, db: D, path: Bytes, request: Result<Bytes, Error>, w: ResponseWriter)
    requires w.header.None? && w.body == []
    modifies w
    ensures Answer(w.Status(), w.body) == Intended(e, db, path, request)
  {
    if path != QUERY_PATH {
      HttpError(w, NOT_FOUND, STATUS_NOT_FOUND);
      return;
    }
    var buffer := new ResponseWriter();
    var outcome := RunInput(e, db, request, buffer);
    if outcome.Aborted? {
      HttpError(w, Message(outcome.err), STATUS_INTERNAL_SERVER_ERROR);
    } else {
      w.Write(buffer.body);
    }
  }

  /** Corrected: the status is 500 exactly when the batch aborted, and a
      client then sees the error and nothing else. */
  lemma IntendedErrorIs500<D>(e: Engine<D>, db: D, request: Result<Bytes, Error>)
    ensures var t := Batch(e, db, request); var a := Intended(e, db, QUERY_PATH, request);
      (a.status == STATUS_INTERNAL_SERVER_ERROR <==> t.outcome.Aborted?) &&
      (t.outcome.Aborted? ==> a.body == Message(t.outcome.err) + [NEWLINE]) &&
      (t.outcome.Done? ==> a.status == STATUS_OK && a.body == Stream(t.lines))
  {
  }

  /**
   * A trailing separator: for the body `q;` with a separator-free statement
   * `q` that completes, when the engine treats the empty statement as
   * read-only with no result columns, the answer is 200 with `q`'s lines
   * only, as if the separator were not there.
   */
  lemma TrailingSeparator<D>(e: Engine<D>, db: D, q: Bytes)
    requires SEMICOLON !in q
    requires Step(e, db, q).outcome.Done?
    requires var d := Step(e, db, q).outcome.db;
      Classification(e.probe(d, [])) == Success(true) &&
      e.query(d, []).Success? && e.query(d, []).value.columns == Success([])
    ensures Served(e, db, QUERY_PATH, Success(q + [SEMICOLON])) ==
      Answer(STATUS_OK, Stream(Step(e, db, q).lines))
  {
    SplitTrailing(q);
    var first := Step(e, db, q);
    assert [q, []][..1] == [q];
    assert [q][..0] == [];
    assert Run(e, db, [q]) == Trace(first.lines, first.outcome);
    assert Step(e, first.outcome.db, []) == Trace([], first.outcome);
    assert Run(e, db, [q, []]) == Trace(first.lines + [], first.outcome);
    assert first.lines + [] == first.lines;
  }

  lemma SplitTrailing(q: Bytes)
    requires SEMICOLON !in q
    ensures Split(q + [SEMICOLON], SEMICOLON) == [q, []]
  {
    var s := q + [SEMICOLON];
    var i := IndexOf(s, SEMICOLON);
    assert s[..|q|] == q;
    assert i == |q|;
    assert s[i + 1..] == [];
  }
}
