/**
 * The preview canvas of src/components/DrawingCanvas.tsx (800 x 600): in text mode the text is
 * laid out from (20, 52) with the shared greedy layout and drawing stops at the first character
 * whose line falls below `height - margin`; in image mode the picture is stretched over the
 * canvas. Over it lies a grid of clickable blocks with ids `r-c` in row-major order, each
 * selected one showing its number.
 */
module DrawingCanvas {
  import opened Results
  import opened JsBuiltins
  import opened BlockIds
  import opened Geometry
  import opened Capture
  import opened TextLayout
  import opened TextVideo
  import opened Selection

  const CanvasW: real := 800.0
  const CanvasH: real := 600.0

  /** The preview text is filled in black (`ctx.fillStyle = '#000'`). */
  const PreviewInk: string := "#000"

  /** The component's `mode` when it is not null. */
  datatype Mode = ImageMode | TextMode

  function Canvas(): Rect {
    Rect(0.0, 0.0, CanvasW, CanvasH)
  }

  /** `x = margin, y = margin + lineHeight`. */
  function PreviewStart(): Pen {
    Pen(Margin, Margin + LineHeight)
  }

  /** The lowest baseline the preview draws on: `canvas.height - margin`. */
  function Floor(): real {
    CanvasH - Margin
  }

  /** The y at which character i would be drawn. */
  function PreviewY(widths: seq<real>, i: nat): real
    requires i < |widths|
  {
    PlaceAt(widths, CanvasW, PreviewStart(), i).y
  }

  /**
   * From character i on, the first one placed below the floor, or |widths| when none is: the
   * character at which the loop breaks.
   */
  function StopIndex(widths: seq<real>, i: nat): (k: nat)
    requires i <= |widths|
    ensures i <= k <= |widths|
    ensures forall j :: i <= j < k ==> PreviewY(widths, j) <= Floor()
    ensures k < |widths| ==> PreviewY(widths, k) > Floor()
    decreases |widths| - i
  {
    if i == |widths| then i
    else if PreviewY(widths, i) > Floor() then i
    else StopIndex(widths, i + 1)
  }

  /** The glyphs the preview draws. */
  function Shown(text: string, widths: seq<real>): seq<Glyph>
    requires |widths| == |text|
  {
    Layout(text, widths, CanvasW, PreviewStart(), StopIndex(widths, 0))
  }

  /**
   * The paint of the preview effect (lines 24-68): nothing without a mode; otherwise a white
   * canvas, then the text or the image. `image` is the decoded picture, None when no file is
   * given or it does not load.
   */
  function Preview(mode: Option<Mode>, text: string, widths: seq<real>, image: Option<Image>): seq<Event>
    requires |widths| == |text|
  {
    if mode.None? then []
    else
      [FillRect("#fff", Canvas())] +
      (if mode == Some(TextMode) && |text| > 0 then GlyphEvents(PreviewInk, Shown(text, widths)) else []) +
      (if mode == Some(ImageMode) && image.Some?
       then [DrawImage(Rect(0.0, 0.0, image.value.width, image.value.height), Canvas())] else [])
  }

  /** The text loop of lines 42-58: wrap, stop below the floor, draw, advance. */
  method DrawPreviewText(text: string, widths: seq<real>) returns (drawn: seq<Event>)
    requires |widths| == |text|
    ensures drawn == GlyphEvents(PreviewInk, Shown(text, widths))
  {
    var x, y := Margin, Margin + LineHeight;
    drawn := [];
    var i := 0;
    while i < |text|
      invariant i <= |text|
      invariant Pen(x, y) == PenBefore(widths, CanvasW, PreviewStart(), i)
      invariant StopIndex(widths, 0) == StopIndex(widths, i)
      invariant drawn == GlyphEvents(PreviewInk, Layout(text, widths, CanvasW, PreviewStart(), i))
    {
      var charWidth := widths[i];
      if x + charWidth > CanvasW - Margin {
        x := Margin;
        y := y + LineHeight;
      }
      if y > CanvasH - Margin {
        break;
      }
      ghost var glyphs := Layout(text, widths, CanvasW, PreviewStart(), i + 1);
      assert glyphs[..i] == Layout(text, widths, CanvasW, PreviewStart(), i);
      drawn := drawn + [FillText(PreviewInk, text[i], x, y)];
      x := x + charWidth;
      i := i + 1;
    }
  }

  /** The preview effect: clear to white, then the text or the image. */
  method RenderPreview(mode: Option<Mode>, text: string, widths: seq<real>, image: Option<Image>)
    returns (events: seq<Event>)
    requires |widths| == |text|
    ensures events == Preview(mode, text, widths, image)
  {
    if mode.None? {
      return [];
    }
    events := [FillRect("#fff", Canvas())];
    var drawn := [];
    if mode == Some(TextMode) && |text| > 0 {
      drawn := DrawPreviewText(text, widths);
    }
    events := events + drawn;
    if mode == Some(ImageMode) && image.Some? {
      events := events + [DrawImage(Rect(0.0, 0.0, image.value.width, image.value.height), Canvas())];
    }
  }

  // ---------------------------------------------------------------------------------------
  // The block grid (lines 76-105)

  /** One block of the overlay: its id, where it sits, and the number it shows when selected. */
  datatype GridBlock = GridBlock(id: string, area: Rect, number: Option<int>)

  /** Block (r, c): `width 800 / cols, height 600 / rows, top r * height, left c * width`. */
  function BlockAt(rows: nat, cols: nat, selected: seq<string>, r: nat, c: nat): GridBlock
    requires rows > 0 && cols > 0
  {
    var id := BlockId(r, c);
    GridBlock(id, CellRect(Canvas(), rows, cols, Cell(r, c)),
      if id in selected then Some(BlockNumber(selected, id)) else None)
  }

  /** The first n blocks in row-major order. */
  function GridPrefix(rows: nat, cols: nat, selected: seq<string>, n: nat): seq<GridBlock>
    requires rows > 0 && cols > 0
  {
    seq(n, i requires 0 <= i < n => BlockAt(rows, cols, selected, i / cols, i % cols))
  }

  /** The blocks renderGrid returns; a grid without rows or columns has none. */
  function Grid(rows: int, cols: int, selected: seq<string>): seq<GridBlock> {
    if rows <= 0 || cols <= 0 then [] else GridPrefix(rows, cols, selected, rows * cols)
  }

  /** renderGrid: nested loops pushing one block per (r, c). */
  method RenderGrid(rows: int, cols: int, selected: seq<string>) returns (grid: seq<GridBlock>)
    ensures grid == Grid(rows, cols, selected)
  {
    grid := [];
    if rows <= 0 || cols <= 0 {
      return;
    }
    var r := 0;
    assert r * cols == 0;
    while r < rows
      invariant 0 <= r <= rows
      invariant grid == GridPrefix(rows, cols, selected, r * cols)
    {
      var c := 0;
      while c < cols
        invariant 0 <= c <= cols
        invariant grid == GridPrefix(rows, cols, selected, r * cols + c)
      {
        RowMajorDivMod(r, c, cols);
        var id := BlockId(r, c);
        var number := if id in selected then Some(IndexOf(selected, id) + 1) else None;
        grid := grid + [GridBlock(id, CellRect(Canvas(), rows, cols, Cell(r, c)), number)];
        c := c + 1;
      }
      assert r * cols + cols == (r + 1) * cols;
      r := r + 1;
    }
  }

  // ---------------------------------------------------------------------------------------
  // Properties

  /**
   * The preview draws exactly the characters whose line is not below the floor: lines only go
   * down, so once one character is below it every later one is too.
   */
  lemma PreviewDrawsWhatFits(text: string, widths: seq<real>, i: nat)
    requires |widths| == |text| && i < |text|
    ensures i < |Shown(text, widths)| <==> PreviewY(widths, i) <= Floor()
    ensures i < |Shown(text, widths)| ==>
      Shown(text, widths)[i] == Glyph(text[i], PlaceAt(widths, CanvasW, PreviewStart(), i).x, PreviewY(widths, i))
  {
    var k := StopIndex(widths, 0);
    if k <= i {
      LinesMonotone(widths, CanvasW, PreviewStart(), k, i);
    } else {
      LayoutShape(text, widths, CanvasW, PreviewStart(), k);
    }
  }

  /**
   * In text mode the preview paints the canvas white and then fills the shown characters at
   * their places, in order; it draws no picture.
   */
  lemma TextPreviewShape(text: string, widths: seq<real>, image: Option<Image>)
    requires |widths| == |text| && |text| > 0
    ensures var p := Preview(Some(TextMode), text, widths, image);
      var shown := Shown(text, widths);
      |p| == 1 + |shown| && p[0] == FillRect("#fff", Canvas()) &&
      forall j :: 0 <= j < |shown| ==> p[1 + j] == FillText(PreviewInk, shown[j].ch, shown[j].x, shown[j].y)
  {
    var shown := Shown(text, widths);
    GlyphEventsShape(PreviewInk, shown);
    var p := Preview(Some(TextMode), text, widths, image);
    assert p == [FillRect("#fff", Canvas())] + GlyphEvents(PreviewInk, shown);
  }

  /** In image mode the preview is the white canvas and, once the picture loads, the picture over all of it. */
  lemma ImagePreviewShape(text: string, widths: seq<real>, image: Option<Image>)
    requires |widths| == |text|
    ensures image.None? ==> Preview(Some(ImageMode), text, widths, image) == [FillRect("#fff", Canvas())]
    ensures image.Some? ==> (Preview(Some(ImageMode), text, widths, image) ==
      [FillRect("#fff", Canvas()), DrawImage(Rect(0.0, 0.0, image.value.width, image.value.height), Canvas())])
  {
  }

  /** The grid lists the ids of the rows x cols grid in row-major order, the same list as AllBlocks. */
  lemma GridIds(rows: nat, cols: nat, selected: seq<string>)
    requires rows > 0 && cols > 0
    ensures |Grid(rows, cols, selected)| == rows * cols == |AllBlocks(rows, cols)|
    ensures forall i :: 0 <= i < rows * cols ==> Grid(rows, cols, selected)[i].id == AllBlocks(rows, cols)[i]
  {
  }

  /**
   * Block (r, c) sits at index r * cols + c, at left c * 800 / cols and top r * 600 / rows, with
   * size 800 / cols x 600 / rows, and shows a number exactly when it is selected: its position in
   * the selection, counted from 1.
   */
  lemma GridBlockAt(rows: nat, cols: nat, selected: seq<string>, r: nat, c: nat)
    requires r < rows && c < cols
    ensures r * cols + c < |Grid(rows, cols, selected)|
    ensures var b := Grid(rows, cols, selected)[r * cols + c];
      b.id == BlockId(r, c) &&
      b.area == Rect((CanvasW / cols as real) * c as real, (CanvasH / rows as real) * r as real,
                     CanvasW / cols as real, CanvasH / rows as real) &&
      (b.number.Some? <==> BlockId(r, c) in selected) &&
      (b.number.Some? ==> selected[b.number.value - 1] == BlockId(r, c))
  {
    var i := r * cols + c;
    assert i < rows * cols by {
      RowEndWithinGrid(r, rows, cols);
    }
    assert i / cols == r && i % cols == c by {
      RowMajorDivMod(r, c, cols);
    }
    assert Grid(rows, cols, selected)[i] == BlockAt(rows, cols, selected, r, c);
    BlockAtFacts(rows, cols, selected, r, c);
  }

  /** What the block of row r, column c holds: its id, its area and its number. */
  lemma BlockAtFacts(rows: nat, cols: nat, selected: seq<string>, r: nat, c: nat)
    requires r < rows && c < cols
    ensures var b := BlockAt(rows, cols, selected, r, c);
      b.id == BlockId(r, c) &&
      b.area == Rect((CanvasW / cols as real) * c as real, (CanvasH / rows as real) * r as real,
                     CanvasW / cols as real, CanvasH / rows as real) &&
      (b.number.Some? <==> BlockId(r, c) in selected) &&
      (b.number.Some? ==> selected[b.number.value - 1] == BlockId(r, c))
  {
  }

  /** Entry i of the grid is the block of row i / cols, column i % cols, a cell of the grid. */
  lemma GridEntry(rows: nat, cols: nat, selected: seq<string>, i: nat)
    requires rows > 0 && cols > 0 && i < |Grid(rows, cols, selected)|
    ensures InGrid(Cell(i / cols, i % cols), rows, cols)
    ensures Grid(rows, cols, selected)[i] == BlockAt(rows, cols, selected, i / cols, i % cols)
  {
    IndexInGrid(i, rows, cols);
  }

  /** The blocks tile the canvas: each lies inside it, and no two overlap. */
  lemma GridTiles(rows: nat, cols: nat, selected: seq<string>, i: nat, j: nat)
    requires rows > 0 && cols > 0
    requires i < |Grid(rows, cols, selected)| && j < |Grid(rows, cols, selected)|
    ensures Inside(Grid(rows, cols, selected)[i].area, Canvas())
    ensures i != j ==> Disjoint(Grid(rows, cols, selected)[i].area, Grid(rows, cols, selected)[j].area)
  {
    var a, b := GridCells(rows, cols, selected, i, j);
    CellsTile(Canvas(), rows, cols, a, b, Grid(rows, cols, selected)[i].area, Grid(rows, cols, selected)[j].area);
  }

  /** The cells behind two entries of the grid: different entries sit on different cells. */
  lemma GridCells(rows: nat, cols: nat, selected: seq<string>, i: nat, j: nat) returns (a: Cell, b: Cell)
    requires rows > 0 && cols > 0
    requires i < |Grid(rows, cols, selected)| && j < |Grid(rows, cols, selected)|
    ensures InGrid(a, rows, cols) && Grid(rows, cols, selected)[i].area == CellRect(Canvas(), rows, cols, a)
    ensures InGrid(b, rows, cols) && Grid(rows, cols, selected)[j].area == CellRect(Canvas(), rows, cols, b)
    ensures i != j ==> a != b
  {
    a := GridCell(rows, cols, selected, i);
    b := GridCell(rows, cols, selected, j);
    if i != j {
      DivModDistinct(i, j, cols);
    }
  }

  /** The cell behind one entry of the grid: row i / cols, column i % cols. */
  lemma GridCell(rows: nat, cols: nat, selected: seq<string>, i: nat) returns (a: Cell)
    requires rows > 0 && cols > 0 && i < |Grid(rows, cols, selected)|
    ensures a == Cell(i / cols, i % cols)
    ensures InGrid(a, rows, cols) && Grid(rows, cols, selected)[i].area == CellRect(Canvas(), rows, cols, a)
  {
    a := Cell(i / cols, i % cols);
    GridEntry(rows, cols, selected, i);
  }

  /** Two cells of the grid: each area lies inside the box, and different cells do not overlap. */
  lemma CellsTile(box: Rect, rows: nat, cols: nat, a: Cell, b: Cell, ra: Rect, rb: Rect)
    requires rows > 0 && cols > 0 && box.w >= 0.0 && box.h >= 0.0
    requires InGrid(a, rows, cols) && InGrid(b, rows, cols)
    requires ra == CellRect(box, rows, cols, a) && rb == CellRect(box, rows, cols, b)
    ensures Inside(ra, box)
    ensures a != b ==> Disjoint(ra, rb)
  {
    CellRectInside(box, rows, cols, a);
    if a != b {
      CellRectsDisjoint(box, rows, cols, a, b);
    }
  }

  /** Over a selection without repeats, the selected blocks show distinct numbers. */
  lemma GridNumbersDistinct(rows: nat, cols: nat, selected: seq<string>, i: nat, j: nat)
    requires rows > 0 && cols > 0
    requires i < j < |Grid(rows, cols, selected)|
    requires Grid(rows, cols, selected)[i].number.Some? && Grid(rows, cols, selected)[j].number.Some?
    ensures Grid(rows, cols, selected)[i].number != Grid(rows, cols, selected)[j].number
  {
    var g := Grid(rows, cols, selected);
    var a := Cell(i / cols, i % cols);
    var b := Cell(j / cols, j % cols);
    assert g[i] == BlockAt(rows, cols, selected, a.row, a.col) by {
      GridEntry(rows, cols, selected, i);
    }
    assert g[j] == BlockAt(rows, cols, selected, b.row, b.col) by {
      GridEntry(rows, cols, selected, j);
    }
    assert BlockId(a.row, a.col) != BlockId(b.row, b.col) by {
      DivModDistinct(i, j, cols);
      if BlockId(a.row, a.col) == BlockId(b.row, b.col) {
        BlockIdInjective(a, b);
      }
    }
  }
}
