/**
 * How the dispatcher renders its output: cells with the null sentinel, Go's
 * `%s` of a `[]string`, and the stream of newline-terminated lines.
 */
module Render {
  import opened Wrappers
  import opened Text

  /** A scanned column value: `None` is SQL NULL, which `database/sql` stores as a nil `[]byte`. */
  type Cell = Option<Bytes>

  /** The two bytes `\N` that stand for a null cell. */
  const NULL_SENTINEL: Bytes := [BACKSLASH, 0x4E]

  function RenderCell(c: Cell): Bytes
  {
    match c
    case None => NULL_SENTINEL
    case Some(raw) => raw
  }

  function RenderCells(cells: seq<Cell>): (r: seq<Bytes>)
    ensures |r| == |cells|
  {
    seq(|cells|, i requires 0 <= i < |cells| => RenderCell(cells[i]))
  }

  /** One output line: a row of cells (column names or values) or a mutation summary. */
  datatype Line = Cells(cells: seq<Bytes>) | Summary(text: Bytes)

  /** Go's `%s` of a `[]string` is `[`, the elements separated by single spaces, `]`;
      a summary is printed as it is. */
  function RenderLine(l: Line): Bytes
  {
    match l
    case Cells(cells) => [LBRACKET] + Join(cells, SPACE) + [RBRACKET]
    case Summary(text) => text
  }

  /** The bytes written for `lines`, each one followed by a newline. */
  function Stream(lines: seq<Line>): Bytes
  {
    if lines == [] then [] else RenderLine(lines[0]) + [NEWLINE] + Stream(lines[1..])
  }

  function Rendered(lines: seq<Line>): (r: seq<Bytes>)
    ensures |r| == |lines|
  {
    seq(|lines|, i requires 0 <= i < |lines| => RenderLine(lines[i]))
  }

  /** The output of consecutive writes is the concatenation of their outputs. */
  lemma {:induction false} StreamAppend(a: seq<Line>, b: seq<Line>)
    ensures Stream(a + b) == Stream(a) + Stream(b)
  {
    if a == [] {
      assert a + b == b;
    } else {
      assert (a + b)[0] == a[0];
      assert (a + b)[1..] == a[1..] + b;
      StreamAppend(a[1..], b);
    }
  }

  /** The stream is the rendered lines joined by newlines, with a final newline. */
  lemma {:induction false} StreamIsJoin(lines: seq<Line>)
    ensures Stream(lines) == Join(Rendered(lines) + [[]], NEWLINE)
  {
    if lines != [] {
      StreamIsJoin(lines[1..]);
      assert Rendered(lines) + [[]] == [RenderLine(lines[0])] + (Rendered(lines[1..]) + [[]]);
    }
  }

  lemma TerminatedParts(lines: seq<Line>)
    requires forall k :: 0 <= k < |lines| ==> NEWLINE !in RenderLine(lines[k])
    ensures forall k :: 0 <= k < |lines| + 1 ==> NEWLINE !in (Rendered(lines) + [[]])[k]
  {
    var parts := Rendered(lines) + [[]];
    forall k | 0 <= k < |parts| ensures NEWLINE !in parts[k] {
      if k < |lines| {
        assert parts[k] == RenderLine(lines[k]);
      }
    }
  }

  /**
   * Every line is newline-terminated: when no rendered line contains a newline
   * byte, splitting the stream at newlines gives back exactly the rendered
   * lines, followed by one empty fragment after the last terminator.
   */
  lemma StreamLines(lines: seq<Line>)
    requires forall k :: 0 <= k < |lines| ==> NEWLINE !in RenderLine(lines[k])
    ensures Split(Stream(lines), NEWLINE) == Rendered(lines) + [[]]
  {
    var parts := Rendered(lines) + [[]];
    TerminatedParts(lines);
    StreamIsJoin(lines);
    SplitJoin(parts, NEWLINE);
  }

  /**
   * A row line holds exactly its cells: it is bracketed, and when no cell
   * contains a space, splitting what lies between the brackets at spaces gives
   * the cells back, one fragment per cell.
   */
  lemma CellsLine(cells: seq<Bytes>)
    requires |cells| >= 1
    requires forall k :: 0 <= k < |cells| ==> SPACE !in cells[k]
    ensures var r := RenderLine(Cells(cells));
      |r| >= 2 && r[0] == LBRACKET && r[|r| - 1] == RBRACKET &&
      Split(r[1..|r| - 1], SPACE) == cells
  {
    var r := RenderLine(Cells(cells));
    assert r[1..|r| - 1] == Join(cells, SPACE);
    SplitJoin(cells, SPACE);
  }

  /**
   * Null rendering: a null cell renders as the two bytes `\` `N`, a non-null
   * cell as its raw bytes unchanged, so two cells render alike only when they
   * are equal or one of them is null and the other holds the text `\N`.
   */
  lemma CellRendering(x: Cell, y: Cell)
    ensures RenderCell(None) == [0x5C, 0x4E]
    ensures x.Some? ==> RenderCell(x) == x.value
    ensures RenderCell(x) == RenderCell(y) <==>
      x == y || (x in {None, Some(NULL_SENTINEL)} && y in {None, Some(NULL_SENTINEL)})
  {
  }
}
