/**
 * Grid block identifiers: the string `${row}-${col}` names the block in row `row`, column
 * `col` of a rows x cols grid, and the list of all ids runs in row-major (raster) order.
 */
module BlockIds {
  import opened Results
  import opened JsBuiltins

  datatype Cell = Cell(row: nat, col: nat)

  predicate InGrid(cell: Cell, rows: nat, cols: nat) {
    cell.row < rows && cell.col < cols
  }

  /** The id `${r}-${c}`. */
  function BlockId(r: nat, c: nat): string {
    NatToString(r) + "-" + NatToString(c)
  }

  /**
   * `id.split('-').map(Number)` destructured into `[row, col]`. Only ids whose first two parts are
   * decimal digit strings are read; any other id gives None (its coordinates would be NaN).
   */
  function ParseBlockId(id: string): Option<Cell> {
    var parts := Split(id, '-');
    if |parts| >= 2 && IsDigits(parts[0]) && IsDigits(parts[1]) then
      Some(Cell(DigitsValue(parts[0]), DigitsValue(parts[1])))
    else
      None
  }

  lemma NatToStringHasNoDash(n: nat)
    ensures '-' !in NatToString(n)
  {
    var s := NatToString(n);
    assert forall i :: 0 <= i < |s| ==> s[i] != '-';
  }

  /** Parsing an id recovers the row and column it was formatted from. */
  lemma ParseBlockIdRoundTrip(r: nat, c: nat)
    ensures ParseBlockId(BlockId(r, c)) == Some(Cell(r, c))
  {
    NatToStringHasNoDash(r);
    NatToStringHasNoDash(c);
    SplitJoin(NatToString(r), '-', NatToString(c));
    assert NatToString(r) + "-" + NatToString(c) == NatToString(r) + ['-'] + NatToString(c);
    DigitsValueOfNatToString(r);
    DigitsValueOfNatToString(c);
  }

  /** Distinct cells have distinct ids. */
  lemma BlockIdInjective(a: Cell, b: Cell)
    requires BlockId(a.row, a.col) == BlockId(b.row, b.col)
    ensures a == b
  {
    ParseBlockIdRoundTrip(a.row, a.col);
    ParseBlockIdRoundTrip(b.row, b.col);
  }

  lemma MulAtLeast(a: int, d: nat)
    requires a >= 1
    ensures a * d >= d
    decreases a
  {
    if a > 1 {
      MulAtLeast(a - 1, d);
      assert a * d == (a - 1) * d + d;
    }
  }

  lemma MulMonotone(a: nat, b: nat, d: nat)
    requires a <= b
    ensures a * d <= b * d
  {
    if a < b {
      MulAtLeast(b - a, d);
      assert b * d == (b - a) * d + a * d;
    }
  }

  /** Quotient and remainder are determined by x == q * d + m with 0 <= m < d. */
  lemma DivModUnique(x: int, d: int, q: int, m: int)
    requires d > 0 && 0 <= m < d && x == q * d + m
    ensures x / d == q && x % d == m
  {
    var q', m' := x / d, x % d;
    assert q' * d + m' == q * d + m;
    if q' > q {
      assert (q' - q) * d == m - m';
      MulAtLeast(q' - q, d);
    } else if q' < q {
      assert (q - q') * d == m' - m;
      MulAtLeast(q - q', d);
    }
  }

  lemma RowMajorDivMod(r: nat, c: nat, cols: nat)
    requires c < cols
    ensures (r * cols + c) / cols == r && (r * cols + c) % cols == c
  {
    DivModUnique(r * cols + c, cols, r, c);
  }

  /** Row r of a rows x cols grid ends at or before index rows * cols. */
  lemma RowEndWithinGrid(r: nat, rows: nat, cols: nat)
    requires r < rows
    ensures (r + 1) * cols <= rows * cols
  {
    MulAtLeast(rows - r, cols);
    assert rows * cols == (rows - r) * cols + r * cols;
  }

  /** An index below rows * cols names a row below rows. */
  lemma IndexInGrid(i: nat, rows: nat, cols: nat)
    requires i < rows * cols
    ensures cols > 0 && i / cols < rows
  {
    assert cols > 0;
    var q := i / cols;
    assert i == q * cols + i % cols;
    var m := if rows <= q then q else rows;
    MulMonotone(rows, m, cols);
  }

  /** `Array.from({ length: rows * cols }, (_, i) => `${Math.floor(i / cols)}-${i % cols}`)`. */
  function AllBlocks(rows: nat, cols: nat): seq<string> {
    RowMajorIds(rows * cols, cols)
  }

  /** The first n ids of the row-major list of a grid with cols columns. */
  function RowMajorIds(n: nat, cols: nat): seq<string>
    requires n == 0 || cols > 0
  {
    seq(n, i requires 0 <= i < n => BlockId(i / cols, i % cols))
  }

  lemma RowMajorIdsSnoc(n: nat, cols: nat)
    requires cols > 0
    ensures RowMajorIds(n + 1, cols) == RowMajorIds(n, cols) + [BlockId(n / cols, n % cols)]
  {
  }

  /** The list holds rows * cols ids, and block (r, c) sits at index r * cols + c. */
  lemma AllBlocksRowMajor(rows: nat, cols: nat, r: nat, c: nat)
    requires r < rows && c < cols
    ensures |AllBlocks(rows, cols)| == rows * cols
    ensures r * cols + c < rows * cols
    ensures AllBlocks(rows, cols)[r * cols + c] == BlockId(r, c)
  {
    RowMajorDivMod(r, c, cols);
    RowEndWithinGrid(r, rows, cols);
  }

  /** Every id in the list parses back to a cell of the grid, namely the one of its index. */
  lemma AllBlocksParse(rows: nat, cols: nat, i: nat)
    requires i < |AllBlocks(rows, cols)|
    ensures cols > 0
    ensures ParseBlockId(AllBlocks(rows, cols)[i]) == Some(Cell(i / cols, i % cols))
    ensures InGrid(Cell(i / cols, i % cols), rows, cols)
  {
    IndexInGrid(i, rows, cols);
    ParseBlockIdRoundTrip(i / cols, i % cols);
  }

  /** The id of every cell inside the grid is in the list. */
  lemma CanonicalIdListed(rows: nat, cols: nat, cell: Cell)
    requires InGrid(cell, rows, cols)
    ensures BlockId(cell.row, cell.col) in AllBlocks(rows, cols)
  {
    AllBlocksRowMajor(rows, cols, cell.row, cell.col);
  }

  /** Every id in the list is the id of the cell it parses to, and that cell is inside the grid. */
  lemma ListedIdCanonical(rows: nat, cols: nat, id: string)
    requires id in AllBlocks(rows, cols)
    ensures ParseBlockId(id).Some? && InGrid(ParseBlockId(id).value, rows, cols)
    ensures id == BlockId(ParseBlockId(id).value.row, ParseBlockId(id).value.col)
  {
    var all := AllBlocks(rows, cols);
    var i :| 0 <= i < |all| && all[i] == id;
    AllBlocksParse(rows, cols, i);
  }

  /** An id is in the list exactly when it is the canonical id of a cell inside the grid. */
  lemma AllBlocksMembership(rows: nat, cols: nat, id: string)
    ensures id in AllBlocks(rows, cols) <==>
      ParseBlockId(id).Some? && InGrid(ParseBlockId(id).value, rows, cols) &&
      id == BlockId(ParseBlockId(id).value.row, ParseBlockId(id).value.col)
  {
    if id in AllBlocks(rows, cols) {
      ListedIdCanonical(rows, cols, id);
    } else if ParseBlockId(id).Some? && InGrid(ParseBlockId(id).value, rows, cols) {
      CanonicalIdListed(rows, cols, ParseBlockId(id).value);
    }
  }

  lemma DivModDistinct(i: nat, j: nat, d: nat)
    requires d > 0 && i != j
    ensures i / d != j / d || i % d != j % d
  {
    assert i == (i / d) * d + i % d;
    assert j == (j / d) * d + j % d;
  }

  /** No id occurs twice in the list. */
  lemma AllBlocksDistinct(rows: nat, cols: nat)
    ensures Distinct(AllBlocks(rows, cols))
  {
    var all := AllBlocks(rows, cols);
    forall i, j | 0 <= i < j < |all|
      ensures all[i] != all[j]
    {
      AllBlocksParse(rows, cols, i);
      AllBlocksParse(rows, cols, j);
      DivModDistinct(i, j, cols);
    }
  }

  /**
   * The nested loops that fill `allBlocks` row by row, column by column, one push each. They
   * build the same list as the `Array.from` form.
   */
  method BuildAllBlocks(rows: nat, cols: nat) returns (ids: seq<string>)
    ensures ids == AllBlocks(rows, cols)
  {
    ids := [];
    var r := 0;
    assert r * cols == 0;
    while r < rows
      invariant 0 <= r <= rows
      invariant ids == RowMajorIds(r * cols, cols)
    {
      var c := 0;
      while c < cols
        invariant 0 <= c <= cols
        invariant ids == RowMajorIds(r * cols + c, cols)
      {
        RowMajorDivMod(r, c, cols);
        RowMajorIdsSnoc(r * cols + c, cols);
        ids := ids + [BlockId(r, c)];
        c := c + 1;
      }
      assert r * cols + cols == (r + 1) * cols;
      r := r + 1;
    }
  }
}
