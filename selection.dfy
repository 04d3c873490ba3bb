/**
 * Content.Selection: the selected stretch of the view between two row/column points.
 * Rows are counted from the bottom of the view upwards, so the text reads from the
 * highest row down. The constructor orders the two points by row, then column, and
 * sets Start and End once; Inside decides whether a character cell is selected.
 */
module ContentSelection {
  import opened Content

  /** (a.Row, a.Column) <= (b.Row, b.Column), row first. */
  predicate NotAfter(a: RowColumn, b: RowColumn) {
    a.row < b.row || (a.row == b.row && a.column <= b.column)
  }

  datatype Selection = Selection(start: RowColumn, end: RowColumn) {
    /**
     * Inside(RowColumn): on a one-row selection the columns from Start to End; on the
     * Start row the columns up to Start's, on the End row those from End's, and every
     * row in between whole.
     */
    predicate Inside(rc: RowColumn) {
      if rc.row == start.row && rc.row == end.row then rc.column >= start.column && rc.column <= end.column
      else if rc.row > start.row && rc.row < end.row then true
      else if rc.row == start.row then rc.column <= start.column
      else if rc.row == end.row then rc.column >= end.column
      else false
    }

    /** Inside(int, int): the same test on the point built from the row and column. */
    function InsideAt(row: int, column: int): (r: bool)
      ensures r <==> Inside(RowColumn(row, column))
    {
      Inside(RowColumn(row, column))
    }
  }

  /** The constructor: the two points ordered by row, then column, swapped when they come the other way. */
  function NewSelection(start: RowColumn, end: RowColumn): (s: Selection)
    ensures NotAfter(s.start, s.end)
    ensures s == Selection(start, end) || s == Selection(end, start)
    ensures NotAfter(start, end) ==> s == Selection(start, end)
  {
    if start.row > end.row || (start.row == end.row && start.column > end.column) then Selection(end, start)
    else Selection(start, end)
  }

  /** The order the points were given in does not matter. */
  lemma NewSelectionSymmetric(a: RowColumn, b: RowColumn)
    ensures NewSelection(a, b) == NewSelection(b, a)
  {
  }

  /** Both ends of a selection are inside it. */
  lemma EndsInside(a: RowColumn, b: RowColumn)
    ensures var s := NewSelection(a, b);
            s.Inside(s.start) && s.Inside(s.end) && s.Inside(a) && s.Inside(b)
  {
  }

  /** Every cell of a row strictly between the end rows is inside. */
  lemma RowsBetweenInside(a: RowColumn, b: RowColumn, rc: RowColumn)
    requires var s := NewSelection(a, b);
             s.start.row < rc.row < s.end.row
    ensures NewSelection(a, b).Inside(rc)
  {
  }

  /** On a one-row selection a cell is inside exactly when its column lies between the two. */
  lemma SingleRow(a: RowColumn, b: RowColumn, rc: RowColumn)
    requires a.row == b.row == rc.row
    ensures NewSelection(a, b).Inside(rc) <==>
              (a.column <= rc.column <= b.column || b.column <= rc.column <= a.column)
  {
  }

  /** Where a cell comes in reading order: rows from the top (the highest) down, then columns left to right. */
  predicate ReadsNotAfter(a: RowColumn, b: RowColumn) {
    a.row > b.row || (a.row == b.row && a.column <= b.column)
  }

  /**
   * On a selection over several rows a cell is inside exactly when, in reading order,
   * it comes between End (on the higher row) and Start (on the lower one).
   */
  lemma ManyRowsReadingOrder(a: RowColumn, b: RowColumn, rc: RowColumn)
    requires a.row != b.row
    ensures var s := NewSelection(a, b);
            s.Inside(rc) <==> ReadsNotAfter(s.end, rc) && ReadsNotAfter(rc, s.start)
  {
  }

  /** Nothing outside the rows of the two ends is inside. */
  lemma OutsideRows(a: RowColumn, b: RowColumn, rc: RowColumn)
    requires var s := NewSelection(a, b);
             rc.row < s.start.row || rc.row > s.end.row
    ensures !NewSelection(a, b).Inside(rc)
  {
  }
}
