/**
 * `display_histogram`: the bar chart of the selected id's CPU history drawn
 * under the tables, as the grid of cells and axis labels it prints (colours
 * and number formatting left out). Row 0 is the top row.
 */
module Histogram {
  import opened Common
  import opened History

  /** One printed grid line: its axis label `axis` and its cells. */
  datatype GridRow = GridRow(axis: real, cells: string)

  /**
   * What the call does: returns before drawing, raises TypeError (`float` of
   * an unset or None bound), or draws the header with the maximum, the grid,
   * and the footer with the minimum.
   */
  datatype View = NotDrawn | Crashed | Drawn(top: real, bottom: real, rows: seq<GridRow>)

  /** A bound `float()` accepts. */
  predicate Real(b: Bound)
  {
    b.Value? && b.bound.Some?
  }

  /**
   * The cell of sample x in grid row `row` of a grid `height` rows high,
   * scaled to [lo, lo + range]: '?' when there is no range or no sample, '_'
   * above the bar, '#' in it.
   */
  function Cell(x: Option<real>, lo: real, range: real, height: int, row: int): char
  {
    if range <= 0.0 || x.None? then '?'
    else if height as real - Quotient(x.value - lo, range, 1) * height as real > row as real then '_'
    else '#'
  }

  /** The axis label of grid row `row`: `lo + (height - row) * (range / height)`. */
  function Label(lo: real, range: real, height: int, row: int): real
    requires height > 0
  {
    lo + (height - row) as real * Quotient(range, height as real, 1)
  }

  /**
   * First sample drawn: the last `columns - 10` samples (all of them if
   * fewer) fit on a line; with 10 columns or fewer nothing is drawn.
   */
  function First(len: nat, columns: int): (start: int)
    ensures start >= 0
    ensures columns > 10 ==> start + Min(len, columns - 10) == len
    ensures columns <= 10 ==> start >= len
  {
    Max(0, len - (columns - 10))
  }

  /** Number of samples drawn per row: `range(start, len)` is empty when start is past the end. */
  function Width(len: nat, columns: int): (w: int)
    ensures w == if columns <= 10 then 0 else Min(len, columns - 10)
  {
    Max(0, len - First(len, columns))
  }

  /** Grid row `row`: the label and one cell per drawn sample. */
  function Line(series: seq<Option<real>>, columns: int, lo: real, range: real, height: int, row: int): (g: GridRow)
    requires height > 0
  {
    var start := First(|series|, columns);
    GridRow(Label(lo, range, height, row),
      seq(Width(|series|, columns), k requires 0 <= k < Width(|series|, columns) =>
        Cell(series[start + k], lo, range, height, row)))
  }

  /**
   * The histogram of id `pid` with `printed` of the `lines` rows used: nothing
   * when fewer than three rows are left, no id is selected or the id has no
   * history; otherwise `lines - printed - 1` grid rows.
   */
  function Draw(h: map<int, Trace>, pid: Option<int>, lines: int, printed: int, columns: int): (v: View)
  {
    var left := lines - printed;
    if left <= 2 || pid.None? || pid.value !in h then NotDrawn
    else
      var tr := h[pid.value];
      if !Real(tr.hi) || !Real(tr.lo) then Crashed
      else
        var hi, lo := tr.hi.bound.value, tr.lo.bound.value;
        Drawn(hi, lo, seq(left - 1, row requires 0 <= row < left - 1 =>
          Line(tr.series, columns, lo, hi - lo, left - 1, row)))
  }

  // ---------------------------------------------------------------------
  // What the grid shows
  // ---------------------------------------------------------------------

  /**
   * When something is drawn, the grid has `lines - printed - 1` rows (at
   * least two), each with one cell for each of the last `columns - 10`
   * samples; nothing is drawn with two rows or fewer left.
   */
  lemma GridShape(h: map<int, Trace>, pid: Option<int>, lines: int, printed: int, columns: int)
    ensures lines - printed <= 2 ==> Draw(h, pid, lines, printed, columns) == NotDrawn
    ensures Draw(h, pid, lines, printed, columns).Drawn? ==>
      var rows := Draw(h, pid, lines, printed, columns).rows;
      var n := |h[pid.value].series|;
      |rows| == lines - printed - 1 >= 2
      && forall row | 0 <= row < |rows| :: |rows[row].cells| == if columns <= 10 then 0 else Min(n, columns - 10)
  {
  }

  /** The header and footer print the id's stored maximum and minimum. */
  lemma DrawnBounds(h: map<int, Trace>, pid: Option<int>, lines: int, printed: int, columns: int)
    requires Draw(h, pid, lines, printed, columns).Drawn?
    ensures pid.Some? && pid.value in h
    ensures h[pid.value].hi == Value(Some(Draw(h, pid, lines, printed, columns).top))
    ensures h[pid.value].lo == Value(Some(Draw(h, pid, lines, printed, columns).bottom))
  {
  }

  /** A cell is '?' exactly when the range is empty or the sample is None. */
  lemma UnknownCell(x: Option<real>, lo: real, range: real, height: int, row: int)
    ensures Cell(x, lo, range, height, row) == '?' <==> range <= 0.0 || x.None?
  {
  }

  /** With a maximum not above the minimum every cell of the grid is '?'. */
  lemma {:induction false} FlatHistoryUnknown(h: map<int, Trace>, pid: Option<int>, lines: int, printed: int, columns: int)
    requires Draw(h, pid, lines, printed, columns).Drawn?
    requires Draw(h, pid, lines, printed, columns).top <= Draw(h, pid, lines, printed, columns).bottom
    ensures var rows := Draw(h, pid, lines, printed, columns).rows;
      forall row, k | 0 <= row < |rows| && 0 <= k < |rows[row].cells| :: rows[row].cells[k] == '?'
  {
    var v := Draw(h, pid, lines, printed, columns);
    var tr := h[pid.value];
    forall row, k | 0 <= row < |v.rows| && 0 <= k < |v.rows[row].cells|
      ensures v.rows[row].cells[k] == '?'
    {
      var g := Line(tr.series, columns, v.bottom, v.top - v.bottom, lines - printed - 1, row);
      assert v.rows[row] == g;
      assert g.cells[k] == Cell(tr.series[First(|tr.series|, columns) + k], v.bottom, v.top - v.bottom, lines - printed - 1, row);
    }
  }

  /** A '#' at some row means '#' at every row below it: bars grow from the bottom. */
  lemma FillsFromBottom(x: Option<real>, lo: real, range: real, height: int, row: int, below: int)
    requires row <= below
    requires Cell(x, lo, range, height, row) == '#'
    ensures Cell(x, lo, range, height, below) == '#'
  {
  }

  /** The same, over a whole drawn grid and each of its columns. */
  lemma {:induction false} GridFillsFromBottom(h: map<int, Trace>, pid: Option<int>, lines: int, printed: int, columns: int)
    requires Draw(h, pid, lines, printed, columns).Drawn?
    ensures var rows := Draw(h, pid, lines, printed, columns).rows;
      forall row, below, k | 0 <= row <= below < |rows| && 0 <= k < |rows[row].cells| && rows[row].cells[k] == '#' ::
        k < |rows[below].cells| && rows[below].cells[k] == '#'
  {
    var v := Draw(h, pid, lines, printed, columns);
    var tr := h[pid.value];
    var height := lines - printed - 1;
    var start := First(|tr.series|, columns);
    forall row, below, k | 0 <= row <= below < |v.rows| && 0 <= k < |v.rows[row].cells| && v.rows[row].cells[k] == '#'
      ensures k < |v.rows[below].cells| && v.rows[below].cells[k] == '#'
    {
      assert v.rows[row] == Line(tr.series, columns, v.bottom, v.top - v.bottom, height, row);
      assert v.rows[below] == Line(tr.series, columns, v.bottom, v.top - v.bottom, height, below);
      FillsFromBottom(tr.series[start + k], v.bottom, v.top - v.bottom, height, row, below);
    }
  }

  /**
   * With a positive range a sample at the maximum fills its whole column and
   * a sample at the minimum leaves it empty.
   */
  lemma ExtremeColumns(lo: real, range: real, height: int, row: int)
    requires range > 0.0 && 0 <= row < height
    ensures Cell(Some(lo + range), lo, range, height, row) == '#'
    ensures Cell(Some(lo), lo, range, height, row) == '_'
  {
    QuotientValue(lo + range - lo, range, 1);
    QuotientValue(lo - lo, range, 1);
  }

  /**
   * The labels run from the maximum at the top row down in equal steps of
   * `range / height`, so the bottom row is labelled one step above the minimum.
   */
  lemma LabelSteps(lo: real, range: real, height: int, row: int)
    requires height > 0 && 0 <= row < height
    ensures Label(lo, range, height, 0) == lo + range
    ensures Label(lo, range, height, row) - Label(lo, range, height, row + 1) == range / height as real
    ensures Label(lo, range, height, height - 1) == lo + range / height as real
  {
    QuotientValue(range, height as real, 1);
  }
}
