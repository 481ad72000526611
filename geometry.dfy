/**
 * Rectangle arithmetic of the block renderers and of the grid overlay: the aspect-preserving,
 * centred fit of an image into the frame, and the cells of a rows x cols partition of a box.
 * Coordinates are exact reals.
 */
module Geometry {
  import opened BlockIds

  /** A rectangle given by its top-left corner and its size, as `drawImage` and `fillRect` take it. */
  datatype Rect = Rect(x: real, y: real, w: real, h: real) {
    function Right(): real { x + w }
    function Bottom(): real { y + h }
  }

  /** a lies within box. */
  predicate Inside(a: Rect, box: Rect) {
    box.x <= a.x && a.Right() <= box.Right() && box.y <= a.y && a.Bottom() <= box.Bottom()
  }

  /** The interiors of a and b do not overlap. */
  predicate Disjoint(a: Rect, b: Rect) {
    a.Right() <= b.x || b.Right() <= a.x || a.Bottom() <= b.y || b.Bottom() <= a.y
  }

  /** `Math.ceil`. */
  function Ceil(x: real): (n: int)
    ensures x <= n as real < x + 1.0
  {
    -((-x).Floor)
  }

  /** The size and offset of the image once fitted into the frame. */
  datatype Fit = Fit(drawW: real, drawH: real, offX: real, offY: real) {
    function Box(): Rect { Rect(offX, offY, drawW, drawH) }
  }

  /**
   * Full frame width first, height scaled by the image's aspect ratio; if that is taller than
   * the frame, full frame height and width scaled instead; the box is then centred.
   */
  function FitImage(canvasW: real, canvasH: real, imgW: real, imgH: real): (f: Fit)
    requires canvasW >= 0.0 && canvasH >= 0.0 && imgW > 0.0 && imgH > 0.0
    ensures 0.0 <= f.drawW <= canvasW && 0.0 <= f.drawH <= canvasH
    ensures f.drawW * imgH == f.drawH * imgW
    ensures f.drawW == canvasW || f.drawH == canvasH
    ensures f.offX >= 0.0 && f.offY >= 0.0
    ensures f.offX + f.drawW + f.offX == canvasW && f.offY + f.drawH + f.offY == canvasH
  {
    var drawW := canvasW;
    var drawH := (imgH / imgW) * drawW;
    if drawH > canvasH then
      var w := (imgW / imgH) * canvasH;
      assert w * imgH == canvasH * imgW;
      assert w < canvasW by {
        assert drawH * imgW == imgH * canvasW;
        assert canvasH * imgW < drawH * imgW;
        assert w * imgH < canvasW * imgH;
      }
      Fit(w, canvasH, (canvasW - w) / 2.0, (canvasH - canvasH) / 2.0)
    else
      Fit(drawW, drawH, (canvasW - drawW) / 2.0, (canvasH - drawH) / 2.0)
  }

  /**
   * Cell (r, c) of the rows x cols partition of box:
   * `(box.x + (box.w / cols) * c, box.y + (box.h / rows) * r, box.w / cols, box.h / rows)`.
   */
  function CellRect(box: Rect, rows: nat, cols: nat, cell: Cell): Rect
    requires rows > 0 && cols > 0
  {
    var cw := box.w / cols as real;
    var ch := box.h / rows as real;
    Rect(box.x + cw * cell.col as real, box.y + ch * cell.row as real, cw, ch)
  }

  lemma ScaledStep(u: real, a: nat, b: nat)
    requires u >= 0.0 && a <= b
    ensures u * a as real <= u * b as real
  {
    assert u * b as real - u * a as real == u * (b - a) as real;
  }

  lemma CellSpan(len: real, n: nat, k: nat)
    requires len >= 0.0 && n > 0 && k < n
    ensures 0.0 <= (len / n as real) * k as real
    ensures (len / n as real) * k as real + len / n as real <= len
  {
    var u := len / n as real;
    assert u * n as real == len;
    ScaledStep(u, 0, k);
    ScaledStep(u, k + 1, n);
    assert u * k as real + u == u * (k + 1) as real;
  }

  /** A cell of the grid lies inside the box. */
  lemma CellRectInside(box: Rect, rows: nat, cols: nat, cell: Cell)
    requires rows > 0 && cols > 0 && box.w >= 0.0 && box.h >= 0.0
    requires InGrid(cell, rows, cols)
    ensures Inside(CellRect(box, rows, cols, cell), box)
  {
    CellSpan(box.w, cols, cell.col);
    CellSpan(box.h, rows, cell.row);
  }

  /** Along one axis, strip i of size u ends at or before strip j starts. */
  lemma StripsApart(origin: real, u: real, i: nat, j: nat)
    requires u >= 0.0 && i < j
    ensures origin + u * i as real + u <= origin + u * j as real
  {
    ScaledStep(u, i + 1, j);
    assert u * i as real + u == u * (i + 1) as real;
  }

  /** A cell ends at or before a cell of a later column starts. */
  lemma ColumnsApart(box: Rect, rows: nat, cols: nat, a: Cell, b: Cell)
    requires rows > 0 && cols > 0 && box.w >= 0.0 && a.col < b.col
    ensures CellRect(box, rows, cols, a).Right() <= CellRect(box, rows, cols, b).x
  {
    var cw := box.w / cols as real;
    calc {
      CellRect(box, rows, cols, a).Right();
    ==
      box.x + cw * a.col as real + cw;
    <=  { StripsApart(box.x, cw, a.col, b.col); }
      box.x + cw * b.col as real;
    ==
      CellRect(box, rows, cols, b).x;
    }
  }

  /** A cell ends at or before a cell of a later row starts. */
  lemma RowsApart(box: Rect, rows: nat, cols: nat, a: Cell, b: Cell)
    requires rows > 0 && cols > 0 && box.h >= 0.0 && a.row < b.row
    ensures CellRect(box, rows, cols, a).Bottom() <= CellRect(box, rows, cols, b).y
  {
    var ch := box.h / rows as real;
    calc {
      CellRect(box, rows, cols, a).Bottom();
    ==
      box.y + ch * a.row as real + ch;
    <=  { StripsApart(box.y, ch, a.row, b.row); }
      box.y + ch * b.row as real;
    ==
      CellRect(box, rows, cols, b).y;
    }
  }

  /** Two different cells of the grid do not overlap. */
  lemma CellRectsDisjoint(box: Rect, rows: nat, cols: nat, a: Cell, b: Cell)
    requires rows > 0 && cols > 0 && box.w >= 0.0 && box.h >= 0.0
    requires InGrid(a, rows, cols) && InGrid(b, rows, cols) && a != b
    ensures Disjoint(CellRect(box, rows, cols, a), CellRect(box, rows, cols, b))
  {
    if a.col < b.col {
      ColumnsApart(box, rows, cols, a, b);
    } else if b.col < a.col {
      ColumnsApart(box, rows, cols, b, a);
    } else if a.row < b.row {
      RowsApart(box, rows, cols, a, b);
    } else {
      RowsApart(box, rows, cols, b, a);
    }
  }

  /**
   * The cells leave no gap: the first column starts at the box's left edge, each cell ends where
   * its right neighbour starts, the last column ends at the box's right edge; likewise for rows.
   */
  lemma CellRectsTile(box: Rect, rows: nat, cols: nat, cell: Cell)
    requires rows > 0 && cols > 0
    requires InGrid(cell, rows, cols)
    ensures cell.col == 0 ==> CellRect(box, rows, cols, cell).x == box.x
    ensures cell.row == 0 ==> CellRect(box, rows, cols, cell).y == box.y
    ensures cell.col + 1 < cols ==>
      CellRect(box, rows, cols, cell).Right() == CellRect(box, rows, cols, Cell(cell.row, cell.col + 1)).x
    ensures cell.row + 1 < rows ==>
      CellRect(box, rows, cols, cell).Bottom() == CellRect(box, rows, cols, Cell(cell.row + 1, cell.col)).y
    ensures cell.col + 1 == cols ==> CellRect(box, rows, cols, cell).Right() == box.Right()
    ensures cell.row + 1 == rows ==> CellRect(box, rows, cols, cell).Bottom() == box.Bottom()
  {
    var cw := box.w / cols as real;
    var ch := box.h / rows as real;
    assert cw * cols as real == box.w && ch * rows as real == box.h;
    assert cw * cell.col as real + cw == cw * (cell.col + 1) as real;
    assert ch * cell.row as real + ch == ch * (cell.row + 1) as real;
  }

  /** A positive length scaled by (m + 1) / m grows; scaled by m / m it stays. */
  lemma RatioFacts(len: real, m: real)
    requires m >= 1.0
    ensures len * (m / m) == len
    ensures len > 0.0 ==> len * ((m + 1.0) / m) > len
  {
    assert m / m == 1.0;
    assert (m + 1.0) / m == 1.0 + 1.0 / m;
    assert len * ((m + 1.0) / m) == len + len / m;
  }

  /** Dividing by a positive number keeps a strict order. */
  lemma DivLess(a: real, b: real, t: real)
    requires t > 0.0 && a < b
    ensures a / t < b / t
  {
    assert (b / t - a / t) * t == b - a;
  }

  /** A share above the whole is above 100 percent. */
  lemma PercentAbove(x: real, total: real)
    requires total > 0.0 && x > total
    ensures x / total * 100.0 > 100.0
  {
    assert (x / total - 1.0) * total == x - total;
  }

  /** The whole is 100 percent. */
  lemma PercentOfWhole(x: real, total: real)
    requires total > 0.0 && x == total
    ensures x / total * 100.0 == 100.0
  {
  }
}
