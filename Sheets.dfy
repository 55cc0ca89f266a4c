/**
 The part of a spreadsheet worksheet the report writes to: cell values keyed
 by (row, column), both counted from 1, and a per-row outline (grouping) level.
 */
module Sheets {

  /** A cell value: a string, a number, or a file's attribute flags. */
  datatype Cell = Text(text: string) | Number(number: int) | Flags(flags: nat)

  type Cells = map<(int, int), Cell>

  /** Row `r` of `a` and row `r` of `b` hold the same cells. */
  ghost predicate SameRow(a: Cells, b: Cells, r: int)
  {
    forall c :: ((r, c) in a <==> (r, c) in b) && ((r, c) in a ==> a[(r, c)] == b[(r, c)])
  }

  /** A rectangular range of cells, as the charts take their data and labels. */
  datatype Address = Address(fromRow: int, fromCol: int, toRow: int, toCol: int)

  /** A worksheet.  The report sets values and outline levels in place. */
  class Worksheet {
    const name: string
    var cells: Cells
    var outlineLevels: map<int, int>

    constructor (name: string)
      ensures this.name == name && cells == map[] && outlineLevels == map[]
    {
      this.name := name;
      cells := map[];
      outlineLevels := map[];
    }
  }
}
