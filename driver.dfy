/**
 * The database as the dispatcher sees it. The SQLite driver and
 * `database/sql` are abstracted as an `Engine` of three oracles over an
 * abstract database state `D`; this module also holds the read-only
 * classifier built on the first oracle and the scanning of one result row
 * into the dispatcher's cell buffer.
 */
module Driver {
  import opened Wrappers
  import opened Text
  import opened Render

  /** An error as it reaches the dispatcher; `Message` is its `Error()` text. */
  datatype Error =
    | Failed(message: Bytes)
      // database/sql's `Scan` arity check: the row has `expected` columns,
      // the scan has `got` destinations
    | ScanArity(expected: nat, got: nat)

  function Message(err: Error): Bytes
  {
    match err
    case Failed(message) => message
    case ScanArity(expected, got) =>
      Ascii("sql: expected ") + Decimal(expected) +
      Ascii(" destination arguments in Scan, not ") + Decimal(got)
  }

  /** The error the classifier makes when preparation yields no statement. */
  const STMT_IS_NIL: Error := Failed(Ascii("stmt is nil"))

  /** What the classifier's driver calls report for one statement text. */
  datatype Probe =
    | ConnFailed(err: Error)       // `db.Conn` failed
    | Rejected(err: Error)         // `Prepare` (or the raw-connection call around it) failed
    | NilStatement                 // `Prepare` succeeded but gave a nil statement
    | Prepared(readonly: bool)     // the prepared statement's `Readonly()` flag

  /** A column value of a fetched row, before it is scanned into a `[]byte` destination. */
  datatype Value =
    | Null
    | Data(bytes: Bytes)           // a value whose text form is `bytes`
    | Unscannable(err: Error)      // a value that cannot be stored in a `[]byte`

  /** The result of `db.Query`: what `rows.Columns()` reports and the rows that
      `rows.Next()` yields before it first answers false. */
  datatype Rows = Rows(columns: Result<seq<Bytes>, Error>, rows: seq<seq<Value>>)

  /** The result of `db.Exec`: the database afterwards and the text that `%s`
      prints for the driver's `sql.Result`. */
  datatype Executed<D> = Executed(db: D, summary: Bytes)

  datatype Engine<!D> = Engine(
    probe: (D, Bytes) -> Probe,
    query: (D, Bytes) -> Result<Rows, Error>,
    exec: (D, Bytes) -> Result<Executed<D>, Error>)

  /**
   * What `isRO` answers for a probe: the statement's read-only flag when it
   * was prepared, and otherwise the error.
   */
  function Classification(p: Probe): (r: Result<bool, Error>)
  {
    match p
    case ConnFailed(err) => Failure(err)
    case Rejected(err) => Failure(err)
    case NilStatement => Failure(STMT_IS_NIL)
    case Prepared(readonly) => Success(readonly)
  }

  /**
   * `isRO`: the flag `ro` starts false and only the preparing callback sets
   * it; every error path answers false. So the classifier never reports
   * "read-only" together with an error, and without an error it reports the
   * prepared statement's own flag.
   */
  method IsReadOnly(p: Probe) returns (ro: bool, err: Option<Error>)
    ensures err.Some? ==> !ro
    ensures err.None? <==> p.Prepared?
    ensures err.None? ==> ro == p.readonly
    ensures Classification(p) == if err.Some? then Failure(err.value) else Success(ro)
  {
    if p.ConnFailed? {
      return false, Some(p.err);
    }
    ro := false;
    var rawErr: Option<Error>;
    match p {
      case Rejected(e) => rawErr := Some(e);
      case NilStatement => rawErr := Some(STMT_IS_NIL);
      case Prepared(flag) =>
        ro := flag;
        rawErr := None;
    }
    if rawErr.Some? {
      return false, rawErr;
    }
    return ro, None;
  }

  /** The cell a scannable value is stored as. */
  function CellOf(v: Value): Cell
    requires !v.Unscannable?
  {
    if v.Null? then None else Some(v.bytes)
  }

  /** Storing the values column by column; the first value that cannot be
      stored ends the scan with its error. */
  function ConvertAll(values: seq<Value>): (r: Result<seq<Cell>, Error>)
    ensures r.Success? <==> forall i :: 0 <= i < |values| ==> !values[i].Unscannable?
    ensures r.Success? ==>
      |r.value| == |values| && forall i :: 0 <= i < |values| ==> r.value[i] == CellOf(values[i])
    ensures forall k ::
      (0 <= k < |values| && values[k].Unscannable? &&
       forall i :: 0 <= i < k ==> !values[i].Unscannable?) ==> r == Failure(values[k].err)
  {
    if values == [] then Success([])
    else if values[0].Unscannable? then Failure(values[0].err)
    else
      match ConvertAll(values[1..])
      case Failure(err) => Failure(err)
      case Success(cells) => Success([CellOf(values[0])] + cells)
  }

  /** `rows.Scan` into `n` destinations: first the arity check, then the
      values one after another. */
  function ScanRow(n: nat, values: seq<Value>): (r: Result<seq<Cell>, Error>)
    ensures r.Success? ==> |r.value| == n
  {
    if |values| != n then Failure(ScanArity(|values|, n)) else ConvertAll(values)
  }

  /**
   * `rows.Scan(dest...)` with `dest[i]` pointing at `raw[i]`: the buffer
   * cells are overwritten in place, in column order; on success the buffer
   * holds the row, and a failing value leaves it and every later cell as
   * they were.
   */
  method Scan(values: seq<Value>, raw: array<Cell>) returns (err: Option<Error>)
    modifies raw
    ensures ScanRow(raw.Length, values) == if err.None? then Success(raw[..]) else Failure(err.value)
    ensures err.Some? && |values| != raw.Length ==> raw[..] == old(raw[..])
    ensures err.Some? && |values| == raw.Length ==>
      exists k :: 0 <= k < raw.Length && values[k].Unscannable? && err.value == values[k].err &&
        raw[k..] == old(raw[k..]) &&
        (forall i :: 0 <= i < k ==> !values[i].Unscannable? && raw[i] == CellOf(values[i]))
  {
    if |values| != raw.Length {
      return Some(ScanArity(|values|, raw.Length));
    }
    var i := 0;
    while i < raw.Length
      invariant 0 <= i <= raw.Length
      invariant forall j :: 0 <= j < i ==> !values[j].Unscannable? && raw[j] == CellOf(values[j])
      invariant raw[i..] == old(raw[i..])
    {
      if values[i].Unscannable? {
        return Some(values[i].err);
      }
      raw[i] := CellOf(values[i]);
      i := i + 1;
    }
    assert raw[..] == ConvertAll(values).value;
    return None;
  }
}
