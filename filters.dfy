/** The line and shift selection applied to the base table. */
module Filters {
  import opened Options
  import opened Seqs
  import opened Rows

  /** The selector entry meaning "every line". */
  const ALL_LINES := "Todas"
  /** The selector entry meaning "every shift". */
  const ALL_SHIFTS := "Todos"

  function LineIs(line: string): Row -> bool
  {
    (r: Row) => r.line == Some(line)
  }

  function ShiftIs(shift: string): Row -> bool
  {
    (r: Row) => r.shift == Some(shift)
  }

  /** A row passes the selection: its line matches unless all lines are selected, and likewise its shift. */
  predicate Selected(r: Row, line: string, shift: string)
  {
    (line == ALL_LINES || r.line == Some(line)) && (shift == ALL_SHIFTS || r.shift == Some(shift))
  }

  /**
   * The line mask, then the shift mask. The result holds exactly the rows
   * that pass the selection, and every row when both sentinels are chosen.
   */
  function Filter(rows: seq<Row>, line: string, shift: string): (r: seq<Row>)
    ensures |r| <= |rows|
    ensures forall x :: x in r <==> x in rows && Selected(x, line, shift)
    ensures line == ALL_LINES && shift == ALL_SHIFTS ==> r == rows
  {
    var byLine := if line != ALL_LINES then Keep(rows, LineIs(line)) else rows;
    if shift != ALL_SHIFTS then Keep(byLine, ShiftIs(shift)) else byLine
  }

  function SelectedBy(line: string, shift: string): Row -> bool
  {
    (r: Row) => Selected(r, line, shift)
  }

  /** The filtered table is the order-preserving subsequence of the rows that pass the selection. */
  lemma FilterIsSubsequence(rows: seq<Row>, line: string, shift: string)
    ensures Filter(rows, line, shift) == Keep(rows, SelectedBy(line, shift))
  {
    var sel := SelectedBy(line, shift);
    if line != ALL_LINES && shift != ALL_SHIFTS {
      KeepKeep(rows, LineIs(line), ShiftIs(shift), sel);
    } else if line != ALL_LINES {
      KeepAgree(rows, LineIs(line), sel);
    } else if shift != ALL_SHIFTS {
      KeepAgree(rows, ShiftIs(shift), sel);
    } else {
      KeepAll(rows, sel);
    }
  }

  /** Filtering keeps the input order: filtering a concatenation concatenates the filtered parts. */
  lemma FilterAppend(a: seq<Row>, b: seq<Row>, line: string, shift: string)
    ensures Filter(a + b, line, shift) == Filter(a, line, shift) + Filter(b, line, shift)
  {
    var byLine := if line != ALL_LINES then Keep(a + b, LineIs(line)) else a + b;
    if line != ALL_LINES {
      KeepAppend(a, b, LineIs(line));
    }
    if shift != ALL_SHIFTS {
      var la := if line != ALL_LINES then Keep(a, LineIs(line)) else a;
      var lb := if line != ALL_LINES then Keep(b, LineIs(line)) else b;
      KeepAppend(la, lb, ShiftIs(shift));
    }
  }

  /** A single row survives exactly when it passes the selection. */
  lemma FilterOne(x: Row, line: string, shift: string)
    ensures Filter([x], line, shift) == if Selected(x, line, shift) then [x] else []
  {
  }
}
