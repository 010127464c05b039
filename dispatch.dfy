/**
 * The batch dispatcher of the `/query` handler (`runInput`): split the body
 * at every `;`, classify each statement in order, stream a read-only
 * statement's rows or write a mutation's summary, and stop at the first
 * error.
 */
module Dispatch {
  import opened Wrappers
  import opened Text
  import opened Render
  import opened Driver
  import opened Response

  /** How a statement, or a whole batch, ends: with the database it leaves
      behind, or with the error that stops the batch. */
  datatype Outcome<D> = Done(db: D) | Aborted(err: Error)

  /** The lines written, in order, and how it ended. */
  datatype Trace<D> = Trace(lines: seq<Line>, outcome: Outcome<D>)

  /** The lines written by the row loop and the scan error that ended it, if any. */
  datatype RowTrace = RowTrace(lines: seq<Line>, fault: Option<Error>)

  /**
   * The `rows.Next()` loop over `rows` with `n` columns: one line per row,
   * until the first row that fails to scan.
   */
  function RowsOutput(n: nat, rows: seq<seq<Value>>): RowTrace
    decreases |rows|
  {
    if rows == [] then RowTrace([], None)
    else
      var before := RowsOutput(n, rows[..|rows| - 1]);
      if before.fault.Some? then before
      else
        match ScanRow(n, rows[|rows| - 1])
        case Failure(err) => RowTrace(before.lines, Some(err))
        case Success(cells) => RowTrace(before.lines + [Cells(RenderCells(cells))], None)
  }

  /**
   * The row lines: line `k` is row `k` scanned and rendered, there is a line
   * for every row unless a scan failed, and a failure is the scan error of
   * the first row without a line.
   */
  lemma {:induction false} RowLines(n: nat, rows: seq<seq<Value>>)
    ensures var r := RowsOutput(n, rows);
      |r.lines| <= |rows| &&
      (r.fault.None? ==> |r.lines| == |rows|) &&
      (forall k :: 0 <= k < |r.lines| ==>
         ScanRow(n, rows[k]).Success? && r.lines[k] == Cells(RenderCells(ScanRow(n, rows[k]).value))) &&
      (r.fault.Some? ==> |r.lines| < |rows| && ScanRow(n, rows[|r.lines|]) == Failure(r.fault.value))
    decreases |rows|
  {
    if rows != [] {
      var front := rows[..|rows| - 1];
      RowLines(n, front);
      assert forall k :: 0 <= k < |front| ==> rows[k] == front[k];
    }
  }

  /** The read path: `db.Query`, `rows.Columns()`, the column-name line and the rows. */
  function QueryStep<D>(e: Engine<D>, d: D, stmt: Bytes): Trace<D>
  {
    match e.query(d, stmt)
    case Failure(err) => Trace([], Aborted(err))
    case Success(result) =>
      match result.columns
      case Failure(err) => Trace([], Aborted(err))
      case Success(cols) =>
        if |cols| == 0 then Trace([], Done(d))
        else
          var body := RowsOutput(|cols|, result.rows);
          Trace([Cells(cols)] + body.lines,
                if body.fault.Some? then Aborted(body.fault.value) else Done(d))
  }

  /** One statement: classify it, then take the read path or the mutation path. */
  function Step<D>(e: Engine<D>, d: D, stmt: Bytes): Trace<D>
  {
    match Classification(e.probe(d, stmt))
    case Failure(err) => Trace([], Aborted(err))
    case Success(true) => QueryStep(e, d, stmt)
    case Success(false) =>
      match e.exec(d, stmt)
      case Failure(err) => Trace([], Aborted(err))
      case Success(x) => Trace([Summary(x.summary)], Done(x.db))
  }

  /** The statements in order, each on the database the previous ones left,
      until one of them aborts. */
  function Run<D>(e: Engine<D>, d: D, stmts: seq<Bytes>): Trace<D>
    decreases |stmts|
  {
    if stmts == [] then Trace([], Done(d))
    else
      var before := Run(e, d, stmts[..|stmts| - 1]);
      if before.outcome.Aborted? then before
      else
        var last := Step(e, before.outcome.db, stmts[|stmts| - 1]);
        Trace(before.lines + last.lines, last.outcome)
  }

  /** `runInput`: read the body, split it at `;` and run the statements. */
  function Batch<D>(e: Engine<D>, d: D, request: Result<Bytes, Error>): Trace<D>
  {
    match request
    case Failure(err) => Trace([], Aborted(err))
    case Success(body) => Run(e, d, Split(body, SEMICOLON))
  }

  /** The status after writing `lines`, one write per line. */
  function HeaderAfter(header: Option<nat>, lines: seq<Line>): Option<nat>
  {
    if lines == [] then header else Commit(header)
  }

  /**
   * Order: running `a` and then `b` is running `a`, and, unless `a` aborted,
   * then running `b` on the database `a` left; the lines are `a`'s followed
   * by `b`'s.
   */
  lemma {:induction false} RunAppend<D>(e: Engine<D>, d: D, a: seq<Bytes>, b: seq<Bytes>)
    ensures var ra := Run(e, d, a);
      Run(e, d, a + b) ==
        if ra.outcome.Aborted? then ra
        else
          var rb := Run(e, ra.outcome.db, b);
          Trace(ra.lines + rb.lines, rb.outcome)
    decreases |b|
  {
    var ra := Run(e, d, a);
    if b == [] {
      assert a + b == a;
    } else {
      var b', x := b[..|b| - 1], b[|b| - 1];
      assert (a + b)[..|a + b| - 1] == a + b';
      assert (a + b)[|a + b| - 1] == x;
      RunAppend(e, d, a, b');
      if !ra.outcome.Aborted? {
        var rb' := Run(e, ra.outcome.db, b');
        if !rb'.outcome.Aborted? {
          var last := Step(e, rb'.outcome.db, x);
          assert ra.lines + rb'.lines + last.lines == ra.lines + (rb'.lines + last.lines);
        }
      }
    }
  }

  /** Abort: once a batch has aborted, no later statement is classified or
      executed, and nothing of theirs is written. */
  lemma AbortIgnoresRest<D>(e: Engine<D>, d: D, stmts: seq<Bytes>, rest: seq<Bytes>)
    requires Run(e, d, stmts).outcome.Aborted?
    ensures Run(e, d, stmts + rest) == Run(e, d, stmts)
  {
    RunAppend(e, d, stmts, rest);
  }

  /**
   * Abort: an aborted batch stopped at some statement `k`: the statements
   * before it all completed, `k`'s own step gave the batch's error, and the
   * output is the earlier statements' lines followed by what `k` wrote
   * before failing.
   */
  lemma {:induction false} AbortedAt<D>(e: Engine<D>, d: D, stmts: seq<Bytes>) returns (k: nat)
    requires Run(e, d, stmts).outcome.Aborted?
    ensures k < |stmts|
    ensures Run(e, d, stmts[..k]).outcome.Done?
    ensures var last := Step(e, Run(e, d, stmts[..k]).outcome.db, stmts[k]);
      last.outcome == Run(e, d, stmts).outcome &&
      Run(e, d, stmts).lines == Run(e, d, stmts[..k]).lines + last.lines
    decreases |stmts|
  {
    var front := stmts[..|stmts| - 1];
    if Run(e, d, front).outcome.Aborted? {
      k := AbortedAt(e, d, front);
      assert front[..k] == stmts[..k];
    } else {
      k := |stmts| - 1;
    }
  }

  /** Zero columns: a read-only statement whose result has no columns writes
      nothing, and the batch goes on with the next statement as if it were
      not there. */
  lemma ZeroColumnsSkipped<D>(e: Engine<D>, d: D, stmts: seq<Bytes>, stmt: Bytes, rest: seq<Bytes>)
    requires Run(e, d, stmts).outcome.Done?
    requires var d' := Run(e, d, stmts).outcome.db;
      Classification(e.probe(d', stmt)) == Success(true) &&
      e.query(d', stmt).Success? && e.query(d', stmt).value.columns == Success([])
    ensures Run(e, d, stmts + [stmt] + rest) == Run(e, d, stmts + rest)
  {
    RunAppend(e, d, stmts + [stmt], rest);
    RunAppend(e, d, stmts, rest);
    assert Run(e, d, stmts + [stmt]) == Run(e, d, stmts) by {
      assert (stmts + [stmt])[..|stmts|] == stmts;
    }
  }

  /**
   * A read-only statement with `n > 0` columns writes one line of column
   * names and then one line per row it scanned, each of exactly `n` rendered
   * cells; all rows when none fails to scan, and otherwise the batch aborts
   * with the scan error of the first row that fails. The database is passed
   * on as received, because the model assumes read-only statements do not
   * change it.
   */
  lemma ReadOnlyBlock<D>(e: Engine<D>, d: D, stmt: Bytes)
    requires Classification(e.probe(d, stmt)) == Success(true)
    requires e.query(d, stmt).Success? && e.query(d, stmt).value.columns.Success?
    requires |e.query(d, stmt).value.columns.value| > 0
    ensures var result := e.query(d, stmt).value;
      var cols, rows, t := result.columns.value, result.rows, Step(e, d, stmt);
      |t.lines| >= 1 && t.lines[0] == Cells(cols) &&
      (forall k :: 1 <= k < |t.lines| ==>
         k - 1 < |rows| && ScanRow(|cols|, rows[k - 1]).Success? &&
         t.lines[k] == Cells(RenderCells(ScanRow(|cols|, rows[k - 1]).value)) &&
         |t.lines[k].cells| == |cols|) &&
      (t.outcome.Done? <==> |t.lines| == 1 + |rows| && forall k :: 0 <= k < |rows| ==> ScanRow(|cols|, rows[k]).Success?) &&
      (t.outcome.Done? ==> t.outcome.db == d) &&
      (t.outcome.Aborted? ==>
         |t.lines| - 1 < |rows| && ScanRow(|cols|, rows[|t.lines| - 1]) == Failure(t.outcome.err))
  {
    var result := e.query(d, stmt).value;
    RowLines(|result.columns.value|, result.rows);
  }

  /**
   * The error exits and the mutation path: a classifier error, a `db.Query`
   * error or a `rows.Columns()` error writes nothing and aborts with that
   * error; a statement that is not read-only writes exactly one line, the
   * summary, when `db.Exec` succeeds, and nothing when it fails.
   */
  lemma StepRoutes<D>(e: Engine<D>, d: D, stmt: Bytes)
    ensures Classification(e.probe(d, stmt)).Failure? ==>
      Step(e, d, stmt) == Trace([], Aborted(Classification(e.probe(d, stmt)).error))
    ensures Classification(e.probe(d, stmt)) == Success(true) && e.query(d, stmt).Failure? ==>
      Step(e, d, stmt) == Trace([], Aborted(e.query(d, stmt).error))
    ensures (Classification(e.probe(d, stmt)) == Success(true) && e.query(d, stmt).Success? &&
             e.query(d, stmt).value.columns.Failure?) ==>
      Step(e, d, stmt) == Trace([], Aborted(e.query(d, stmt).value.columns.error))
    ensures Classification(e.probe(d, stmt)) == Success(false) ==>
      match e.exec(d, stmt)
      case Success(x) => Step(e, d, stmt) == Trace([Summary(x.summary)], Done(x.db))
      case Failure(err) => Step(e, d, stmt) == Trace([], Aborted(err))
  {
  }

  /**
   * The row loop, with the `rawResult` and `result` buffers allocated once and
   * overwritten in place for every row.
   */
  method StreamRows(n: nat, rows: seq<seq<Value>>, w: ResponseWriter) returns (fault: Option<Error>)
    modifies w
    ensures fault == RowsOutput(n, rows).fault
    ensures w.body == old(w.body) + Stream(RowsOutput(n, rows).lines)
    ensures w.header == HeaderAfter(old(w.header), RowsOutput(n, rows).lines)
  {
    var rawResult := new Cell[n];
    var result := new Bytes[n];
    var i := 0;
    while i < |rows|
      invariant 0 <= i <= |rows|
      invariant RowsOutput(n, rows[..i]).fault.None?
      invariant w.body == old(w.body) + Stream(RowsOutput(n, rows[..i]).lines)
      invariant w.header == HeaderAfter(old(w.header), RowsOutput(n, rows[..i]).lines)
    {
      var err := Scan(rows[i], rawResult);
      if err.Some? {
        RowsSnoc(n, rows, i);
        assert rows == rows[..i + 1] + rows[i + 1..];
        RowsFaultIsFinal(n, rows[..i + 1], rows[i + 1..]);
        return err;
      }
      RenderRow(rawResult, result);
      RowsLoopStep(n, rows, i, old(w.body));
      w.Write(RenderLine(Cells(result[..])) + [NEWLINE]);
      i := i + 1;
    }
    assert rows[..i] == rows;
    return None;
  }

  /** One more row: the loop's output grows by that row's line, or ends with its scan error. */
  lemma RowsSnoc(n: nat, rows: seq<seq<Value>>, i: nat)
    requires i < |rows| && RowsOutput(n, rows[..i]).fault.None?
    ensures RowsOutput(n, rows[..i + 1]) ==
      match ScanRow(n, rows[i])
      case Failure(err) => RowTrace(RowsOutput(n, rows[..i]).lines, Some(err))
      case Success(cells) => RowTrace(RowsOutput(n, rows[..i]).lines + [Cells(RenderCells(cells))], None)
  {
    assert rows[..i + 1][..i] == rows[..i];
  }

  /** What one turn of the row loop writes, for a row that scans. */
  lemma RowsLoopStep(n: nat, rows: seq<seq<Value>>, i: nat, start: Bytes)
    requires i < |rows| && RowsOutput(n, rows[..i]).fault.None? && ScanRow(n, rows[i]).Success?
    ensures var before := RowsOutput(n, rows[..i]).lines;
      var line := Cells(RenderCells(ScanRow(n, rows[i]).value));
      var after := RowsOutput(n, rows[..i + 1]);
      after == RowTrace(before + [line], None) &&
      start + Stream(after.lines) == start + Stream(before) + (RenderLine(line) + [NEWLINE])
  {
    var before := RowsOutput(n, rows[..i]).lines;
    var line := Cells(RenderCells(ScanRow(n, rows[i]).value));
    RowsSnoc(n, rows, i);
    StreamAppend(before, [line]);
    assert Stream([line]) == RenderLine(line) + [NEWLINE];
    AppendAssoc(start, Stream(before), RenderLine(line) + [NEWLINE]);
  }

  /** The `for i, raw := range rawResult` loop: every cell of `result` is
      overwritten with the rendering of the scanned cell at the same index. */
  method RenderRow(rawResult: array<Cell>, result: array<Bytes>)
    requires rawResult.Length == result.Length
    modifies result
    ensures result[..] == RenderCells(rawResult[..])
  {
    var j := 0;
    while j < result.Length
      invariant 0 <= j <= result.Length
      invariant forall k :: 0 <= k < j ==> result[k] == RenderCell(rawResult[k])
    {
      result[j] := RenderCell(rawResult[j]);
      j := j + 1;
    }
  }

  /** Once the row loop has failed, later rows change nothing. */
  lemma {:induction false} RowsFaultIsFinal(n: nat, rows: seq<seq<Value>>, rest: seq<seq<Value>>)
    requires RowsOutput(n, rows).fault.Some?
    ensures RowsOutput(n, rows + rest) == RowsOutput(n, rows)
    decreases |rest|
  {
    if rest != [] {
      var front := rest[..|rest| - 1];
      assert (rows + rest)[..|rows + rest| - 1] == rows + front;
      RowsFaultIsFinal(n, rows, front);
    } else {
      assert rows + rest == rows;
    }
  }

  /** One more statement: the batch's output grows by that statement's lines. */
  lemma RunSnoc<D>(e: Engine<D>, d: D, stmts: seq<Bytes>, i: nat)
    requires i < |stmts| && Run(e, d, stmts[..i]).outcome.Done?
    ensures var step := Step(e, Run(e, d, stmts[..i]).outcome.db, stmts[i]);
      Run(e, d, stmts[..i + 1]) == Trace(Run(e, d, stmts[..i]).lines + step.lines, step.outcome)
  {
    assert stmts[..i + 1][..i] == stmts[..i];
  }

  /**
   * The body of the dispatch loop for one statement: classify it, then run it
   * on the read path or the mutation path, writing its lines to `w`.
   */
  method DispatchStatement<D>(e: Engine<D>, d: D, query: Bytes, w: ResponseWriter)
      returns (outcome: Outcome<D>)
    modifies w
    ensures outcome == Step(e, d, query).outcome
    ensures w.body == old(w.body) + Stream(Step(e, d, query).lines)
    ensures w.header == HeaderAfter(old(w.header), Step(e, d, query).lines)
  {
    var ro, err := IsReadOnly(e.probe(d, query));
    if err.Some? {
      return Aborted(err.value);
    }
    if ro {
      var rows := e.query(d, query);
      if rows.Failure? {
        return Aborted(rows.error);
      }
      var cols := rows.value.columns;
      if cols.Failure? {
        return Aborted(cols.error);
      }
      var numCols := |cols.value|;
      if numCols == 0 {
        return Done(d);
      }
      StreamAppend([Cells(cols.value)], RowsOutput(numCols, rows.value.rows).lines);
      assert Stream([Cells(cols.value)]) == RenderLine(Cells(cols.value)) + [NEWLINE];
      w.Write(RenderLine(Cells(cols.value)) + [NEWLINE]);
      var fault := StreamRows(numCols, rows.value.rows, w);
      if fault.Some? {
        return Aborted(fault.value);
      }
      return Done(d);
    } else {
      var result := e.exec(d, query);
      if result.Failure? {
        return Aborted(result.error);
      }
      assert Stream([Summary(result.value.summary)]) == result.value.summary + [NEWLINE];
      w.Write(RenderLine(Summary(result.value.summary)) + [NEWLINE]);
      return Done(result.value.db);
    }
  }

  /** What one turn of the dispatch loop adds to the batch so far. */
  lemma DispatchLoopStep<D>(e: Engine<D>, db: D, queries: seq<Bytes>, i: nat, header: Option<nat>)
    requires i < |queries| && Run(e, db, queries[..i]).outcome.Done?
    ensures var before := Run(e, db, queries[..i]);
      var step := Step(e, before.outcome.db, queries[i]);
      var after := Run(e, db, queries[..i + 1]);
      after.outcome == step.outcome &&
      Stream(after.lines) == Stream(before.lines) + Stream(step.lines) &&
      HeaderAfter(header, after.lines) == HeaderAfter(HeaderAfter(header, before.lines), step.lines) &&
      (step.outcome.Aborted? ==> Run(e, db, queries) == Run(e, db, queries[..i + 1]))
  {
    var before := Run(e, db, queries[..i]);
    var step := Step(e, before.outcome.db, queries[i]);
    RunSnoc(e, db, queries, i);
    StreamAppend(before.lines, step.lines);
    if step.outcome.Aborted? {
      assert queries == queries[..i + 1] + queries[i + 1..];
      AbortIgnoresRest(e, db, queries[..i + 1], queries[i + 1..]);
    }
  }

  /** The dispatch loop: the statements in order, stopping at the first error. */
  method RunStatements<D>(e: Engine<D>, db: D, queries: seq<Bytes>, w: ResponseWriter)
      returns (outcome: Outcome<D>)
    modifies w
    ensures outcome == Run(e, db, queries).outcome
    ensures w.body == old(w.body) + Stream(Run(e, db, queries).lines)
    ensures w.header == HeaderAfter(old(w.header), Run(e, db, queries).lines)
  {
    var d := db;
    var i := 0;
    while i < |queries|
      invariant 0 <= i <= |queries|
      invariant Run(e, db, queries[..i]).outcome == Done(d)
      invariant w.body == old(w.body) + Stream(Run(e, db, queries[..i]).lines)
      invariant w.header == HeaderAfter(old(w.header), Run(e, db, queries[..i]).lines)
    {
      var stepOutcome := DispatchStatement(e, d, queries[i], w);
      DispatchLoopStep(e, db, queries, i, old(w.header));
      AppendAssoc(old(w.body), Stream(Run(e, db, queries[..i]).lines), Stream(Step(e, d, queries[i]).lines));
      if stepOutcome.Aborted? {
        return stepOutcome;
      }
      d := stepOutcome.db;
      i := i + 1;
    }
    assert queries[..i] == queries;
    return Done(d);
  }

  /**
   * `runInput`: reads the body, splits it at `;` and dispatches the
   * statements in order, writing each line to `w` as it goes; it returns how
   * the batch ended.
   */
  method RunInput<D>(e: Engine<D>, db: D, request: Result<Bytes, Error>, w: ResponseWriter)
      returns (outcome: Outcome<D>)
    modifies w
    ensures outcome == Batch(e, db, request).outcome
    ensures w.body == old(w.body) + Stream(Batch(e, db, request).lines)
    ensures w.header == HeaderAfter(old(w.header), Batch(e, db, request).lines)
  {
    if request.Failure? {
      return Aborted(request.error);
    }
    var queries := Split(request.value, SEMICOLON);
    outcome := RunStatements(e, db, queries, w);
  }
}
