/**
 * The older generator of src/features/generator.tsx. It renders either a text, one character per
 * frame, or a BMP image block by block. For every step of a block's sweep it blacks out the
 * block's cell, repaints the chosen blocks that come before it, draws the part of the block swept
 * so far, reports progress and waits one frame. There is no closing full copy of the block.
 */
module LegacyGenerator {
  import opened Results
  import opened JsBuiltins
  import opened BlockIds
  import opened Geometry
  import opened Capture
  import opened RevealPlan

  /** The caller's arguments, with the defaults of the source already applied. */
  datatype LegacyParams = LegacyParams(
    inputType: Option<InputType>,
    text: Option<string>,   // textInput
    hasFile: bool,          // bmpFile is given
    rows: nat,
    cols: nat,
    selected: seq<string>,
    dir: Direction,
    width: real,            // hieghtVideo, which sizes the canvas width (default 1280)
    height: real,           // weightVideo, which sizes the canvas height (default 720)
    background: string,     // default "#fff"
    fps: real)              // default 120

  /**
   * A frame of non-negative size, a positive frame rate (the wait is `1000 / fps`) and a decoded
   * picture with area. Text mode never reads the grid; an image run may have 0 rows or columns
   * when nothing is selected, and then the grid is empty.
   */
  predicate ParamsOk(p: LegacyParams, b: Browser) {
    p.width >= 0.0 && p.height >= 0.0 && p.fps > 0.0 &&
    (b.decoded.Some? ==> b.decoded.value.width > 0.0 && b.decoded.value.height > 0.0) &&
    (p.inputType == Some(Bmp) && |p.selected| > 0 ==> p.rows > 0 && p.cols > 0)
  }

  // ---------------------------------------------------------------------------------------
  // Text mode (lines 79-102)

  /** The text is filled in white (`ctx.fillStyle = '#fff'`, line 51), whatever the background. */
  const TextInk: string := "#fff"

  /** The background when the caller gives none (`colorVideoBack = "#fff"`). */
  const DefaultBackground: string := "#fff"

  /** The pen after the first k characters: start at (50, 50), advance by the width, wrap past width - 100. */
  function Pen(chars: string, measure: char -> real, canvasW: real, k: nat): (pen: (real, real))
    requires k <= |chars|
  {
    if k == 0 then (50.0, 50.0)
    else
      var prev := Pen(chars, measure, canvasW, k - 1);
      var x := prev.0 + measure(chars[k - 1]);
      if x > canvasW - 100.0 then (50.0, prev.1 + 60.0) else (x, prev.1)
  }

  /** Character k: drawn at the pen, progress (k + 1) / n, one frame wait. */
  function CharEvents(chars: string, measure: char -> real, canvasW: real, wait: real, k: nat): seq<Event>
    requires k < |chars|
  {
    var pen := Pen(chars, measure, canvasW, k);
    [FillText(TextInk, chars[k], pen.0, pen.1), Percent(((k + 1) as real / |chars| as real) * 100.0), Wait(wait)]
  }

  /** The first k characters. */
  function TextEvents(chars: string, measure: char -> real, canvasW: real, wait: real, k: nat): seq<Event>
    requires k <= |chars|
  {
    if k == 0 then []
    else TextEvents(chars, measure, canvasW, wait, k - 1) + CharEvents(chars, measure, canvasW, wait, k - 1)
  }

  /** The character loop. */
  method DrawText(s: Session, chars: string, measure: char -> real, canvasW: real, wait: real)
    modifies s
    ensures s.events == old(s.events) + TextEvents(chars, measure, canvasW, wait, |chars|)
    ensures s.state == old(s.state)
  {
    var x, y := 50.0, 50.0;
    var lineHeight := 60.0;
    for i := 0 to |chars|
      invariant (x, y) == Pen(chars, measure, canvasW, i)
      invariant s.events == old(s.events) + TextEvents(chars, measure, canvasW, wait, i)
      invariant s.state == old(s.state)
    {
      var c := chars[i];
      s.Emit(FillText(TextInk, c, x, y));
      x := x + measure(c);
      if x > canvasW - 100.0 {
        x := 50.0;
        y := y + lineHeight;
      }
      s.Emit(Percent(((i + 1) as real / |chars| as real) * 100.0));
      s.Emit(Wait(wait));
    }
  }

  /** The baseline of text line n (from 0): 50 plus n lines of 60. */
  function LineY(n: nat): real {
    50.0 + 60.0 * n as real
  }

  /**
   * The pen stays on the frame's 100-pixel-margin grid: x is 50 or at most width - 100, and y is
   * 50 plus a whole number of 60-pixel lines, never going back up.
   */
  lemma {:induction false} PenBounds(chars: string, measure: char -> real, canvasW: real, k: nat)
    requires k <= |chars|
    requires forall c :: measure(c) >= 0.0
    ensures var pen := Pen(chars, measure, canvasW, k);
      pen.0 >= 50.0 && (pen.0 == 50.0 || pen.0 <= canvasW - 100.0)
    ensures exists lines: nat :: lines <= k && Pen(chars, measure, canvasW, k).1 == LineY(lines)
    ensures k > 0 ==> Pen(chars, measure, canvasW, k - 1).1 <= Pen(chars, measure, canvasW, k).1
  {
    if k > 0 {
      PenBounds(chars, measure, canvasW, k - 1);
      var lines: nat :| lines <= k - 1 && Pen(chars, measure, canvasW, k - 1).1 == LineY(lines);
      var prev := Pen(chars, measure, canvasW, k - 1);
      if prev.0 + measure(chars[k - 1]) > canvasW - 100.0 {
        assert Pen(chars, measure, canvasW, k).1 == LineY(lines + 1);
      } else {
        assert Pen(chars, measure, canvasW, k).1 == LineY(lines);
      }
    } else {
      assert Pen(chars, measure, canvasW, 0).1 == LineY(0);
    }
  }

  /**
   * On a frame at least 150 wide, glyphs at most 100 wide lie horizontally inside the frame (the
   * line keeps moving down 60 pixels per wrap, with no bound), and the last character reports
   * exactly 100 percent.
   */
  lemma TextStaysInFrame(chars: string, measure: char -> real, canvasW: real, wait: real, k: nat)
    requires k < |chars| && canvasW >= 150.0
    requires forall c :: 0.0 <= measure(c) <= 100.0
    ensures var e := CharEvents(chars, measure, canvasW, wait, k)[0];
      50.0 <= e.x && e.x + measure(chars[k]) <= canvasW
    ensures k + 1 == |chars| ==> CharEvents(chars, measure, canvasW, wait, k)[1] == Percent(100.0)
  {
    PenBounds(chars, measure, canvasW, k);
  }

  // ---------------------------------------------------------------------------------------
  // BMP mode (lines 103-374)

  /** Everything fixed before the first block is drawn. */
  datatype Setup = Setup(
    img: Image, rows: nat, cols: nat, dir: Direction, fit: Fit,
    blockW: real, blockH: real, chosen: seq<string>, wait: real)
  {
    /** A grid with rows and columns over a picture with area, cut into blocks with area. */
    predicate Valid() {
      rows > 0 && cols > 0 && img.width > 0.0 && img.height > 0.0 &&
      blockW > 0.0 && blockH > 0.0 &&
      fit.drawW >= 0.0 && fit.drawH >= 0.0
    }
  }

  /** Lines 119-155: the fit, `blockWidth = img.width / cols`, `blockHeight = img.height / rows`, the chosen blocks. */
  function MakeSetup(p: LegacyParams, img: Image): (st: Setup)
    requires p.rows > 0 && p.cols > 0 && p.width >= 0.0 && p.height >= 0.0 && p.fps > 0.0
    requires img.width > 0.0 && img.height > 0.0
    ensures st.Valid()
    ensures st.blockW * p.cols as real == img.width && st.blockH * p.rows as real == img.height
    ensures st.chosen == LegacyChosen(p.selected, AllBlocks(p.rows, p.cols))
  {
    Setup(img, p.rows, p.cols, p.dir, FitImage(p.width, p.height, img.width, img.height),
      img.width / p.cols as real, img.height / p.rows as real,
      LegacyChosen(p.selected, AllBlocks(p.rows, p.cols)), 1000.0 / p.fps)
  }

  function SrcRect(st: Setup, cell: Cell): Rect {
    Rect(cell.col as real * st.blockW, cell.row as real * st.blockH, st.blockW, st.blockH)
  }

  function DestRect(st: Setup, cell: Cell): Rect
    requires st.Valid()
  {
    CellRect(st.fit.Box(), st.rows, st.cols, cell)
  }

  /** The full copy of a block, as `animate = false` and the repaint loop draw it. */
  function FullDraw(st: Setup, cell: Cell): Event
    requires st.Valid()
  {
    DrawImage(SrcRect(st, cell), DestRect(st, cell))
  }

  /** A paint of the block an id names; an id that names no cell gives NaN coordinates and paints nothing. */
  function FullEvents(st: Setup, id: string): seq<Event>
    requires st.Valid()
  {
    var cell := ParseBlockId(id);
    if cell.Some? then [FullDraw(st, cell.value)] else []
  }

  /** The block's extent along the sweep: its height for vertical sweeps, its width otherwise. */
  function Extent(st: Setup): real
    requires st.Valid()
  {
    if st.dir.TopBottom? || st.dir.BottomTop? then st.blockH else st.blockW
  }

  /**
   * How many times the direction's loop runs: `for (line = 0; line < extent; line++)` runs
   * ceil(extent) times, `for (line = extent - 1; line >= 0; line--)` runs floor(extent) times.
   */
  function Steps(st: Setup): nat
    requires st.Valid()
  {
    if st.dir.TopBottom? || st.dir.LeftRight? then Ceil(Extent(st)) else Extent(st).Floor
  }

  /** The loop variable at step k: counting up from 0, or down from extent - 1. */
  function LineAt(st: Setup, k: nat): real
    requires st.Valid()
  {
    if st.dir.TopBottom? || st.dir.LeftRight? then k as real else Extent(st) - 1.0 - k as real
  }

  /** The partial copy at step k, per direction (lines 211-221, 255-266, 300-310, 344-355). */
  function PartialDraw(st: Setup, cell: Cell, k: nat): Event
    requires st.Valid()
  {
    PartialRects(st.dir, st.blockW, st.blockH, SrcRect(st, cell), DestRect(st, cell), LineAt(st, k))
  }

  /** The copy a step makes of the part of the block the loop variable `line` has reached. */
  function PartialRects(dir: Direction, blockW: real, blockH: real, src: Rect, dest: Rect, line: real): Event
    requires blockW > 0.0 && blockH > 0.0
  {
    if dir == TopBottom then
      DrawImage(Rect(src.x, src.y, blockW, line + 1.0),
                Rect(dest.x, dest.y, dest.w, dest.h * ((line + 1.0) / blockH)))
    else if dir == BottomTop then
      var linesToDraw := blockH - line;
      DrawImage(Rect(src.x, src.y + line, blockW, linesToDraw),
                Rect(dest.x, dest.y + dest.h * (line / blockH), dest.w, dest.h * (linesToDraw / blockH)))
    else if dir == LeftRight then
      DrawImage(Rect(src.x, src.y, line + 1.0, blockH),
                Rect(dest.x, dest.y, dest.w * ((line + 1.0) / blockW), dest.h))
    else
      var colsToDraw := blockW - line;
      DrawImage(Rect(src.x + line, src.y, colsToDraw, blockH),
                Rect(dest.x + dest.w * (line / blockW), dest.y, dest.w * (colsToDraw / blockW), dest.h))
  }

  /** Progress at step k: the index among the chosen blocks plus the swept share of this one. */
  function Progress(st: Setup, id: string, k: nat): real
    requires st.Valid()
  {
    var total := (st.rows * st.cols) as real;
    assert total > 0.0 by { MulAtLeast(st.rows, st.cols); }
    ((IndexOf(st.chosen, id) as real + (k + 1) as real / Extent(st)) / total) * 100.0
  }

  /** The chosen blocks repainted before the block being swept: those before its first occurrence. */
  function RepaintList(chosen: seq<string>, id: string): seq<string> {
    if id in chosen then chosen[..IndexOf(chosen, id)] else chosen
  }

  /** The full copies of the blocks ids, in order. */
  function RepaintEvents(st: Setup, ids: seq<string>): seq<Event>
    requires st.Valid()
  {
    if |ids| == 0 then [] else RepaintEvents(st, ids[..|ids| - 1]) + FullEvents(st, ids[|ids| - 1])
  }

  /** Step k of a block's sweep. */
  function StepEvents(st: Setup, id: string, cell: Option<Cell>, k: nat): seq<Event>
    requires st.Valid()
  {
    (if cell.Some? then [FillRect("#000", DestRect(st, cell.value))] else []) +
    RepaintEvents(st, RepaintList(st.chosen, id)) +
    (if cell.Some? then [PartialDraw(st, cell.value, k)] else []) +
    [Percent(Progress(st, id, k)), Wait(st.wait)]
  }

  function SweepEvents(st: Setup, id: string, cell: Option<Cell>, k: nat): seq<Event>
    requires st.Valid()
  {
    if k == 0 then [] else SweepEvents(st, id, cell, k - 1) + StepEvents(st, id, cell, k - 1)
  }

  /** What `drawBlock(id, animate)` paints. */
  function BlockEvents(st: Setup, id: string, animate: bool): seq<Event>
    requires st.Valid()
  {
    if animate then SweepEvents(st, id, ParseBlockId(id), Steps(st)) else FullEvents(st, id)
  }

  function PlanEvents(st: Setup, ids: seq<string>): seq<Event>
    requires st.Valid()
  {
    if |ids| == 0 then []
    else PlanEvents(st, ids[..|ids| - 1]) + BlockEvents(st, ids[|ids| - 1], true)
  }

  /** The whole run, error paths included. */
  function LegacyRun(p: LegacyParams, b: Browser, measure: char -> real): Trace
    requires ParamsOk(p, b)
  {
    if p.inputType.None? then Trace([], Idle, Failure(NoInputType))
    else if !b.contextOk then Trace([], Idle, Failure(NoContext))
    else
      var opening := [FillRect(p.background, Rect(0.0, 0.0, p.width, p.height)), RecorderStart];
      var closing := [Wait(1000.0), RecorderStop];
      if p.inputType == Some(Text) then
        if p.text.None? || IsBlank(p.text.value) then Trace(opening + [RecorderStop], Stopped, Failure(NoText))
        else
          var chars := p.text.value;
          Trace(opening + TextEvents(chars, measure, p.width, 1000.0 / p.fps, |chars|) + closing,
                Stopped, Success(()))
      else if !p.hasFile then Trace(opening + [RecorderStop], Stopped, Failure(NoBmpFile))
      else if b.decoded.None? then Trace(opening, Recording, Failure(DecodeFailed))
      else if !b.offscreenOk then Trace(opening + [RecorderStop], Stopped, Failure(NoOffscreenContext))
      else if p.rows == 0 || p.cols == 0 then
        // Nothing selected and `rows * cols` is 0: both block lists are empty, the block sizes
        // (a division by 0) are never read, and the video is the background alone.
        Trace(opening + closing, Stopped, Success(()))
      else
        var st := MakeSetup(p, b.decoded.value);
        Trace(opening + PlanEvents(st, LegacyPlan(p.selected, p.rows, p.cols)) + closing, Stopped, Success(()))
  }

  // ---------------------------------------------------------------------------------------
  // The renderer

  /** `for (const b of chosenBlocks) { if (b === blockId) break; ...drawImage(b) }`. */
  method Repaint(s: Session, st: Setup, id: string)
    requires st.Valid()
    modifies s
    ensures s.events == old(s.events) + RepaintEvents(st, RepaintList(st.chosen, id))
    ensures s.state == old(s.state)
  {
    var i := 0;
    while i < |st.chosen|
      invariant 0 <= i <= |st.chosen| && id !in st.chosen[..i]
      invariant s.events == old(s.events) + RepaintEvents(st, st.chosen[..i])
      invariant s.state == old(s.state)
    {
      var b := st.chosen[i];
      if b == id {
        break;
      }
      RepaintOne(s, st, b);
      RepaintEventsSnoc(st, st.chosen, i);
      AppendAssoc(old(s.events), RepaintEvents(st, st.chosen[..i]), FullEvents(st, b));
      i := i + 1;
    }
    if i == |st.chosen| {
      assert st.chosen[..i] == st.chosen;
    } else {
      assert st.chosen[i] == id;
      assert i == IndexOf(st.chosen, id);
    }
  }

  lemma RepaintEventsSnoc(st: Setup, ids: seq<string>, i: nat)
    requires st.Valid() && i < |ids|
    ensures RepaintEvents(st, ids[..i + 1]) == RepaintEvents(st, ids[..i]) + FullEvents(st, ids[i])
  {
    assert ids[..i + 1][..i] == ids[..i];
  }

  /** The full copy of one earlier block inside the repaint loop. */
  method RepaintOne(s: Session, st: Setup, b: string)
    requires st.Valid()
    modifies s
    ensures s.events == old(s.events) + FullEvents(st, b) && s.state == old(s.state)
  {
    var cell := ParseBlockId(b);
    if cell.Some? {
      var r, c := cell.value.row, cell.value.col;
      var destW, destH := st.fit.drawW / st.cols as real, st.fit.drawH / st.rows as real;
      var draw := DrawImage(Rect(c as real * st.blockW, r as real * st.blockH, st.blockW, st.blockH),
                            Rect(st.fit.offX + destW * c as real, st.fit.offY + destH * r as real, destW, destH));
      assert draw == FullDraw(st, cell.value);
      s.Emit(draw);
    }
  }

  /** One pass of a direction's loop body, with the loop variable `line`. */
  method SweepStep(s: Session, st: Setup, id: string, cell: Option<Cell>, ghost k: nat, line: real)
    requires st.Valid() && line == LineAt(st, k)
    modifies s
    ensures s.events == old(s.events) + StepEvents(st, id, cell, k) && s.state == old(s.state)
  {
    ghost var e0 := s.events;
    ghost var blank: seq<Event> := if cell.Some? then [FillRect("#000", DestRect(st, cell.value))] else [];
    ghost var repaint := RepaintEvents(st, RepaintList(st.chosen, id));
    ghost var partial: seq<Event> := if cell.Some? then [PartialDraw(st, cell.value, k)] else [];
    ghost var report := [Percent(Progress(st, id, k)), Wait(st.wait)];
    BlankCell(s, st, cell);
    Repaint(s, st, id);
    if cell.Some? {
      var draw := PartialRects(st.dir, st.blockW, st.blockH, SrcRect(st, cell.value), DestRect(st, cell.value), line);
      s.Emit(draw);
    }
    assert s.events == e0 + blank + repaint + partial;
    ReportStep(s, st, id, k, line);
    StepAssoc(e0, blank, repaint, partial, report);
  }

  /** `ctx.fillStyle = '#000'; ctx.fillRect(...)` over the block's cell, when the id names one. */
  method BlankCell(s: Session, st: Setup, cell: Option<Cell>)
    requires st.Valid()
    modifies s
    ensures s.events == old(s.events) + (if cell.Some? then [FillRect("#000", DestRect(st, cell.value))] else [])
    ensures s.state == old(s.state)
  {
    if cell.Some? {
      var c := cell.value;
      var destW, destH := st.fit.drawW / st.cols as real, st.fit.drawH / st.rows as real;
      var fill := FillRect("#000", Rect(st.fit.offX + destW * c.col as real, st.fit.offY + destH * c.row as real, destW, destH));
      assert fill == FillRect("#000", DestRect(st, c));
      s.Emit(fill);
    }
  }

  /** The progress report and the frame wait that end a step. */
  method ReportStep(s: Session, st: Setup, id: string, ghost k: nat, line: real)
    requires st.Valid() && line == LineAt(st, k)
    modifies s
    ensures s.events == old(s.events) + [Percent(Progress(st, id, k)), Wait(st.wait)] && s.state == old(s.state)
  {
    var swept := if st.dir == TopBottom || st.dir == LeftRight then line + 1.0 else Extent(st) - line;
    assert swept == (k + 1) as real;
    var total := st.rows * st.cols;
    MulAtLeast(st.rows, st.cols);
    var percent := ((IndexOf(st.chosen, id) as real + swept / Extent(st)) / total as real) * 100.0;
    s.Emit(Percent(percent));
    s.Emit(Wait(st.wait));
  }

  lemma StepAssoc(e: seq<Event>, a: seq<Event>, b: seq<Event>, c: seq<Event>, d: seq<Event>)
    ensures e + a + b + c + d == e + (a + b + c + d)
  {
  }

  /** `drawBlock(blockId, animate)`: one loop per direction. */
  method DrawBlock(s: Session, st: Setup, id: string, animate: bool)
    requires st.Valid()
    modifies s
    ensures s.events == old(s.events) + BlockEvents(st, id, animate) && s.state == old(s.state)
  {
    var cell := ParseBlockId(id);
    if !animate {
      if cell.Some? {
        s.Emit(FullDraw(st, cell.value));
      }
      return;
    }
    if st.dir == TopBottom || st.dir == LeftRight {
      SweepForward(s, st, id, cell);
    } else {
      SweepBackward(s, st, id, cell);
    }
  }

  /** `for (let line = 0; line < extent; line++)`: the top-bottom and left-right loops. */
  method SweepForward(s: Session, st: Setup, id: string, cell: Option<Cell>)
    requires st.Valid() && (st.dir == TopBottom || st.dir == LeftRight)
    modifies s
    ensures s.events == old(s.events) + SweepEvents(st, id, cell, Steps(st)) && s.state == old(s.state)
  {
    var ext := Extent(st);
    assert Steps(st) == Ceil(ext);
    var line := 0.0;
    ghost var k: nat := 0;
    while line < ext
      invariant line == k as real && k <= Steps(st)
      invariant s.events == old(s.events) + SweepEvents(st, id, cell, k) && s.state == old(s.state)
      decreases Steps(st) - k
    {
      assert k < Steps(st);
      SweepStep(s, st, id, cell, k, line);
      AppendAssoc(old(s.events), SweepEvents(st, id, cell, k), StepEvents(st, id, cell, k));
      line := line + 1.0;
      k := k + 1;
    }
    assert k == Steps(st);
  }

  /** `for (let line = extent - 1; line >= 0; line--)`: the bottom-top and right-left loops. */
  method SweepBackward(s: Session, st: Setup, id: string, cell: Option<Cell>)
    requires st.Valid() && !(st.dir == TopBottom || st.dir == LeftRight)
    modifies s
    ensures s.events == old(s.events) + SweepEvents(st, id, cell, Steps(st)) && s.state == old(s.state)
  {
    var ext := Extent(st);
    var line := ext - 1.0;
    ghost var k: nat := 0;
    while line >= 0.0
      invariant line == ext - 1.0 - k as real && k <= Steps(st)
      invariant s.events == old(s.events) + SweepEvents(st, id, cell, k) && s.state == old(s.state)
      decreases Steps(st) - k
    {
      SweepStep(s, st, id, cell, k, line);
      AppendAssoc(old(s.events), SweepEvents(st, id, cell, k), StepEvents(st, id, cell, k));
      line := line - 1.0;
      k := k + 1;
    }
    assert k == Steps(st);
  }

  /** `for (const blockId of ids) await drawBlock(blockId)`. */
  method DrawBlocks(s: Session, st: Setup, ids: seq<string>)
    requires st.Valid()
    modifies s
    ensures s.events == old(s.events) + PlanEvents(st, ids) && s.state == old(s.state)
  {
    for k := 0 to |ids|
      invariant s.events == old(s.events) + PlanEvents(st, ids[..k]) && s.state == old(s.state)
    {
      DrawBlock(s, st, ids[k], true);
      assert PlanEvents(st, ids[..k + 1]) == PlanEvents(st, ids[..k]) + BlockEvents(st, ids[k], true) by {
        assert ids[..k + 1][..k] == ids[..k];
      }
      AppendAssoc(old(s.events), PlanEvents(st, ids[..k]), BlockEvents(st, ids[k], true));
    }
    assert ids[..|ids|] == ids;
  }

  lemma {:induction false} PlanEventsAppend(st: Setup, a: seq<string>, b: seq<string>)
    requires st.Valid()
    ensures PlanEvents(st, a + b) == PlanEvents(st, a) + PlanEvents(st, b)
    decreases |b|
  {
    if |b| > 0 {
      var b' := b[..|b| - 1];
      var last := BlockEvents(st, b[|b| - 1], true);
      assert (a + b)[..|a + b| - 1] == a + b';
      assert (a + b)[|a + b| - 1] == b[|b| - 1];
      calc {
        PlanEvents(st, a + b);
        PlanEvents(st, a + b') + last;
        { PlanEventsAppend(st, a, b'); }
        PlanEvents(st, a) + PlanEvents(st, b') + last;
        { AppendAssoc(PlanEvents(st, a), PlanEvents(st, b'), last); }
        PlanEvents(st, a) + PlanEvents(st, b);
      }
    } else {
      assert a + b == a;
    }
  }

  /** The chosen blocks, then, when any are left, the others (lines 140-155 and 366-374). */
  method SweepPlan(s: Session, p: LegacyParams, st: Setup)
    requires st.Valid() && p.rows > 0 && p.cols > 0
    requires st.chosen == LegacyChosen(p.selected, AllBlocks(p.rows, p.cols))
    modifies s
    ensures s.events == old(s.events) + PlanEvents(st, LegacyPlan(p.selected, p.rows, p.cols))
    ensures s.state == old(s.state)
  {
    var all := BuildAllBlocks(p.rows, p.cols);
    var chosen := LegacyChosen(p.selected, all);
    var notChosen := LegacyNotChosen(p.selected, all);
    PlanEventsAppend(st, chosen, notChosen);
    ghost var start := s.events;
    DrawBlocks(s, st, chosen);
    if |notChosen| > 0 {
      DrawBlocks(s, st, notChosen);
    }
    AppendAssoc(start, PlanEvents(st, chosen), PlanEvents(st, notChosen));
  }

  /** The legacy `generateVideoBMP`, text and image modes. */
  method GenerateVideo(p: LegacyParams, b: Browser, measure: char -> real) returns (s: Session, result: Result<(), GenError>)
    requires ParamsOk(p, b)
    ensures fresh(s)
    ensures s.events == LegacyRun(p, b, measure).events && s.state == LegacyRun(p, b, measure).state
    ensures result == LegacyRun(p, b, measure).result
  {
    s := new Session();
    if p.inputType.None? {
      return s, Failure(NoInputType);
    }
    if !b.contextOk {
      return s, Failure(NoContext);
    }
    s.Emit(FillRect(p.background, Rect(0.0, 0.0, p.width, p.height)));
    s.Start();
    ghost var opening := s.events;
    ghost var body: seq<Event>;
    if p.inputType == Some(Text) {
      if p.text.None? || IsBlank(p.text.value) {
        s.Stop();
        return s, Failure(NoText);
      }
      var chars := p.text.value;
      DrawText(s, chars, measure, p.width, 1000.0 / p.fps);
      body := TextEvents(chars, measure, p.width, 1000.0 / p.fps, |chars|);
    } else {
      if !p.hasFile {
        s.Stop();
        return s, Failure(NoBmpFile);
      }
      if b.decoded.None? {
        return s, Failure(DecodeFailed);
      }
      if !b.offscreenOk {
        s.Stop();
        return s, Failure(NoOffscreenContext);
      }
      if p.rows == 0 || p.cols == 0 {
        // An empty grid and no selection: no block to sweep.
        body := [];
      } else {
        var st := MakeSetup(p, b.decoded.value);
        SweepPlan(s, p, st);
        body := PlanEvents(st, LegacyPlan(p.selected, p.rows, p.cols));
      }
    }
    s.Emit(Wait(1000.0));
    s.Stop();
    AppendAssoc(opening + body, [Wait(1000.0)], [RecorderStop]);
    assert [Wait(1000.0)] + [RecorderStop] == [Wait(1000.0), RecorderStop];
    assert opening == [FillRect(p.background, Rect(0.0, 0.0, p.width, p.height)), RecorderStart];
    assert s.events == opening + body + [Wait(1000.0), RecorderStop];
    return s, Success(());
  }

  // ---------------------------------------------------------------------------------------
  // Properties

  /** The first k characters: one glyph at the pen, one progress report and one wait each, in order. */
  lemma {:induction false} TextShape(chars: string, measure: char -> real, canvasW: real, wait: real, k: nat)
    requires k <= |chars|
    ensures |TextEvents(chars, measure, canvasW, wait, k)| == 3 * k
    ensures forall i :: 0 <= i < k ==>
      TextEvents(chars, measure, canvasW, wait, k)[3 * i..3 * i + 3] == CharEvents(chars, measure, canvasW, wait, i)
  {
    if k > 0 {
      TextShape(chars, measure, canvasW, wait, k - 1);
      var prev := TextEvents(chars, measure, canvasW, wait, k - 1);
      var all := TextEvents(chars, measure, canvasW, wait, k);
      assert all == prev + CharEvents(chars, measure, canvasW, wait, k - 1);
      forall i | 0 <= i < k
        ensures all[3 * i..3 * i + 3] == CharEvents(chars, measure, canvasW, wait, i)
      {
        if i < k - 1 {
          assert all[3 * i..3 * i + 3] == prev[3 * i..3 * i + 3];
        } else {
          assert all[3 * i..3 * i + 3] == all[|prev|..];
        }
      }
    }
  }

  /** What a text-mode step may log: a glyph in the text colour, a progress report or a wait. */
  predicate TextModeEvent(e: Event) {
    (e.FillText? && e.color == TextInk) || e.Percent? || e.Wait?
  }

  /** The first k characters log only glyphs in the text colour, reports and waits. */
  lemma {:induction false} TextInkOnly(chars: string, measure: char -> real, canvasW: real, wait: real, k: nat)
    requires k <= |chars|
    ensures forall e :: e in TextEvents(chars, measure, canvasW, wait, k) ==> TextModeEvent(e)
  {
    if k > 0 {
      TextInkOnly(chars, measure, canvasW, wait, k - 1);
      var prev := TextEvents(chars, measure, canvasW, wait, k - 1);
      var last := CharEvents(chars, measure, canvasW, wait, k - 1);
      assert TextEvents(chars, measure, canvasW, wait, k) == prev + last;
      assert forall e :: e in last ==> TextModeEvent(e);
    }
  }

  /**
   * With the default background a text run is invisible: the background is filled "#fff", every
   * character is filled in that same colour, and nothing else is painted.
   */
  lemma TextInvisibleOnDefaultBackground(p: LegacyParams, b: Browser, measure: char -> real)
    requires ParamsOk(p, b) && p.inputType == Some(Text) && p.background == DefaultBackground
    ensures var t := LegacyRun(p, b, measure);
      t.result.Success? ==>
        t.events[0] == FillRect(DefaultBackground, Rect(0.0, 0.0, p.width, p.height)) &&
        forall e :: e in t.events[1..] ==>
          !e.FillRect? && !e.DrawImage? && !e.DrawHand? && (e.FillText? ==> e.color == DefaultBackground)
  {
    var t := LegacyRun(p, b, measure);
    if t.result.Success? {
      var chars := p.text.value;
      var wait := 1000.0 / p.fps;
      var body := TextEvents(chars, measure, p.width, wait, |chars|);
      TextInkOnly(chars, measure, p.width, wait, |chars|);
      assert t.events[1..] == [RecorderStart] + body + [Wait(1000.0), RecorderStop];
    }
  }

  /** The progress of the text mode rises with every character. */
  lemma TextProgressRises(n: nat, i: nat, j: nat)
    requires i < j < n
    ensures ((i + 1) as real / n as real) * 100.0 < ((j + 1) as real / n as real) * 100.0
  {
    DivLess((i + 1) as real, (j + 1) as real, n as real);
  }

  /**
   * When the block's extent is a whole number n of pixels, every direction takes n steps and the
   * last one copies the whole block into its whole cell.
   */
  lemma WholeExtentEndsWithFullCopy(st: Setup, cell: Cell)
    requires st.Valid() && Extent(st) == Extent(st).Floor as real
    ensures Steps(st) == Extent(st).Floor && Steps(st) >= 1
    ensures PartialDraw(st, cell, Steps(st) - 1) == FullDraw(st, cell)
  {
    WholeSteps(st);
    var e := Extent(st);
    var line := LineAt(st, Steps(st) - 1);
    assert st.dir.TopBottom? || st.dir.LeftRight? ==> line + 1.0 == e;
    assert st.dir.BottomTop? || st.dir.RightLeft? ==> line == 0.0;
    WholeRects(st.dir, st.blockW, st.blockH, SrcRect(st, cell), DestRect(st, cell), line);
  }

  /** A step that has reached the far edge of the block copies all of it into all of its cell. */
  lemma WholeRects(dir: Direction, blockW: real, blockH: real, src: Rect, dest: Rect, line: real)
    requires blockW > 0.0 && blockH > 0.0 && src.w == blockW && src.h == blockH
    requires dir.TopBottom? ==> line + 1.0 == blockH
    requires dir.LeftRight? ==> line + 1.0 == blockW
    requires dir.BottomTop? || dir.RightLeft? ==> line == 0.0
    ensures PartialRects(dir, blockW, blockH, src, dest, line) == DrawImage(src, dest)
  {
    match dir
    case TopBottom =>
      assert dest.h * (blockH / blockH) == dest.h;
    case BottomTop =>
      assert blockH - line == blockH && blockH / blockH == 1.0;
      assert dest.h * (line / blockH) == 0.0;
    case LeftRight =>
      assert dest.w * (blockW / blockW) == dest.w;
    case RightLeft =>
      assert blockW - line == blockW && blockW / blockW == 1.0;
      assert dest.w * (line / blockW) == 0.0;
  }

  /**
   * When the extent is fractional, the top-bottom and left-right loops run once more than the
   * block has whole lines, and the last step reads past the block's edge in the image.
   */
  lemma FractionalForwardSweepOvershoots(st: Setup, cell: Cell)
    requires st.Valid() && (st.dir.TopBottom? || st.dir.LeftRight?)
    requires Extent(st) != Extent(st).Floor as real
    ensures Steps(st) == Extent(st).Floor + 1
    ensures var d := PartialDraw(st, cell, Steps(st) - 1);
      st.dir.TopBottom? ==> d.src.y == SrcRect(st, cell).y && d.src.Bottom() > SrcRect(st, cell).Bottom()
    ensures var d := PartialDraw(st, cell, Steps(st) - 1);
      st.dir.LeftRight? ==> d.src.x == SrcRect(st, cell).x && d.src.Right() > SrcRect(st, cell).Right()
  {
    var e := Extent(st);
    assert e.Floor as real < e;
  }

  /**
   * Every step of a bottom-top or right-left sweep reaches the block's far edge, in the image and
   * in the frame.
   */
  lemma ReverseSweepKeepsFarEdge(st: Setup, cell: Cell, k: nat)
    requires st.Valid() && (st.dir.BottomTop? || st.dir.RightLeft?)
    ensures var d := PartialDraw(st, cell, k);
      st.dir.BottomTop? ==> d.src.Bottom() == SrcRect(st, cell).Bottom() && d.dest.Bottom() == DestRect(st, cell).Bottom()
    ensures var d := PartialDraw(st, cell, k);
      st.dir.RightLeft? ==> d.src.Right() == SrcRect(st, cell).Right() && d.dest.Right() == DestRect(st, cell).Right()
  {
    var line := LineAt(st, k);
    var dest := DestRect(st, cell);
    var e := Extent(st);
    assert line / e + (e - line) / e == 1.0;
    assert dest.h * (line / e) + dest.h * ((e - line) / e) == dest.h * (line / e + (e - line) / e);
    assert dest.w * (line / e) + dest.w * ((e - line) / e) == dest.w * (line / e + (e - line) / e);
  }

  /**
   * When the extent is fractional, the bottom-top and right-left loops run once per whole line and
   * every step starts strictly inside the block: the strip at its top or left edge is never copied.
   */
  lemma FractionalReverseSweepMissesStrip(st: Setup, cell: Cell, k: nat)
    requires st.Valid() && (st.dir.BottomTop? || st.dir.RightLeft?)
    requires Extent(st) != Extent(st).Floor as real && k < Steps(st)
    ensures Steps(st) == Extent(st).Floor
    ensures st.dir.BottomTop? ==> PartialDraw(st, cell, k).src.y > SrcRect(st, cell).y
    ensures st.dir.RightLeft? ==> PartialDraw(st, cell, k).src.x > SrcRect(st, cell).x
  {
    var e := Extent(st);
    assert e.Floor as real < e;
  }

  /** A block thinner than one pixel along a bottom-top or right-left sweep is never drawn at all. */
  lemma ThinBlockReverseSweepIsEmpty(st: Setup, id: string)
    requires st.Valid() && (st.dir.BottomTop? || st.dir.RightLeft?) && Extent(st) < 1.0
    ensures Steps(st) == 0 && BlockEvents(st, id, true) == []
  {
  }

  /**
   * While sweeping the j-th of distinct chosen blocks, exactly the chosen blocks before it are
   * repainted; a block that is not chosen repaints every chosen block.
   */
  lemma RepaintsEarlierChosen(chosen: seq<string>, j: nat, id: string)
    requires Distinct(chosen) && j < |chosen|
    ensures RepaintList(chosen, chosen[j]) == chosen[..j]
    ensures id !in chosen ==> RepaintList(chosen, id) == chosen
  {
    IndexOfDistinct(chosen, j);
  }

  /** The repaint list holds one full copy per id that names a cell, in order. */
  lemma {:induction false} RepaintShape(st: Setup, ids: seq<string>)
    requires st.Valid() && forall i :: 0 <= i < |ids| ==> ParseBlockId(ids[i]).Some?
    ensures |RepaintEvents(st, ids)| == |ids|
    ensures forall i :: 0 <= i < |ids| ==> RepaintEvents(st, ids)[i] == FullDraw(st, ParseBlockId(ids[i]).value)
  {
    if |ids| > 0 {
      RepaintShape(st, ids[..|ids| - 1]);
    }
  }

  /** With a whole-number extent the last step of the j-th chosen block reports (j + 1) / total. */
  lemma WholeExtentProgress(st: Setup, id: string)
    requires st.Valid() && Extent(st) == Extent(st).Floor as real
    ensures Progress(st, id, Steps(st) - 1) ==
      ((IndexOf(st.chosen, id) + 1) as real / (st.rows * st.cols) as real) * 100.0
  {
    var e := Extent(st);
    assert Steps(st) == e.Floor;
    assert Steps(st) as real / e == 1.0;
  }

  /** With a whole-number extent and every block chosen once, the last block ends at exactly 100 percent. */
  lemma WholeExtentEndsAtHundred(st: Setup, k: nat)
    requires st.Valid() && Extent(st) == Extent(st).Floor as real && k + 1 == Steps(st)
    requires |st.chosen| == st.rows * st.cols && Distinct(st.chosen)
    ensures Progress(st, st.chosen[|st.chosen| - 1], k) == 100.0
  {
    var n := |st.chosen|;
    assert n >= 1 by { MulAtLeast(st.rows, st.cols); }
    var e := Extent(st);
    assert IndexOf(st.chosen, st.chosen[n - 1]) == n - 1 by { IndexOfDistinct(st.chosen, n - 1); }
    assert (k + 1) as real == e by { WholeSteps(st); }
    var total := (st.rows * st.cols) as real;
    assert Progress(st, st.chosen[n - 1], k) == (((n - 1) as real + (k + 1) as real / e) / total) * 100.0;
    WholeShare((n - 1) as real, (k + 1) as real, e, total);
  }

  /** A whole-number extent is swept in exactly that many steps, whichever the direction. */
  lemma WholeSteps(st: Setup)
    requires st.Valid() && Extent(st) == Extent(st).Floor as real
    ensures Steps(st) as real == Extent(st)
  {
    var e := Extent(st);
    var c := Ceil(e);
    assert e <= c as real < e + 1.0;
    assert c == e.Floor;
  }

  /** A last share of exactly one block makes the total exactly the whole. */
  lemma WholeShare(before: real, last: real, e: real, total: real)
    requires before >= 0.0 && e > 0.0 && last == e && total == before + 1.0
    ensures (before + last / e) / total * 100.0 == 100.0
  {
    assert last / e == 1.0;
    PercentOfWhole(before + last / e, total);
  }

  /**
   * With a fractional extent the top-bottom and left-right sweeps overshoot: when every block is
   * chosen once, the last block's last step reports more than 100 percent.
   */
  lemma FractionalForwardProgressOvershoots(st: Setup)
    requires st.Valid() && (st.dir.TopBottom? || st.dir.LeftRight?)
    requires Extent(st) != Extent(st).Floor as real
    requires |st.chosen| == st.rows * st.cols && Distinct(st.chosen)
    ensures Progress(st, st.chosen[|st.chosen| - 1], Steps(st) - 1) > 100.0
  {
    var n := |st.chosen|;
    assert n >= 1 by { MulAtLeast(st.rows, st.cols); }
    var e := Extent(st);
    var k := Steps(st) - 1;
    assert IndexOf(st.chosen, st.chosen[n - 1]) == n - 1 by { IndexOfDistinct(st.chosen, n - 1); }
    assert e < (k + 1) as real by {
      assert Steps(st) == Ceil(e);
    }
    var total := (st.rows * st.cols) as real;
    assert Progress(st, st.chosen[n - 1], k) == (((n - 1) as real + (k + 1) as real / e) / total) * 100.0;
    OvershootShare((n - 1) as real, (k + 1) as real, e, total);
  }

  /** A last share above one block pushes the total above the whole. */
  lemma OvershootShare(before: real, last: real, e: real, total: real)
    requires before >= 0.0 && e > 0.0 && e < last && total == before + 1.0
    ensures (before + last / e) / total * 100.0 > 100.0
  {
    assert last / e > 1.0 by {
      DivLess(e, last, e);
      assert e / e == 1.0;
    }
    PercentAbove(before + last / e, total);
  }

  /** A block that is not chosen has index -1: its progress stays negative until its last line. */
  lemma ProgressOfNotChosen(st: Setup, id: string, k: nat)
    requires st.Valid() && id !in st.chosen && (k + 1) as real < Extent(st)
    ensures Progress(st, id, k) < 0.0
  {
    var e := Extent(st);
    MulAtLeast(st.rows, st.cols);
    DivLess((k + 1) as real, e, e);
    assert e / e == 1.0;
    DivLess((k + 1) as real / e - 1.0, 0.0, (st.rows * st.cols) as real);
  }

  /**
   * The recorder across the run: nothing is recorded without an input type or a context; a
   * missing text, a missing file and a missing offscreen context stop the recorder before
   * throwing; a failed decode throws with the recorder still recording; a successful run ends
   * with a one-second wait and the stop.
   */
  lemma RecorderLifecycle(p: LegacyParams, b: Browser, measure: char -> real)
    requires ParamsOk(p, b)
    ensures var t := LegacyRun(p, b, measure);
      (t.result == Failure(NoInputType) || t.result == Failure(NoContext)) <==> (t.events == [] && t.state == Idle)
    ensures var t := LegacyRun(p, b, measure);
      (t.result == Failure(NoText) || t.result == Failure(NoBmpFile) || t.result == Failure(NoOffscreenContext)) ==>
        t.state == Stopped && t.events[|t.events| - 1] == RecorderStop
    ensures var t := LegacyRun(p, b, measure);
      t.result == Failure(DecodeFailed) ==> t.state == Recording && RecorderStop !in t.events
    ensures var t := LegacyRun(p, b, measure);
      t.result.Success? <==>
        p.inputType.Some? && b.contextOk &&
        if p.inputType == Some(Text) then p.text.Some? && !IsBlank(p.text.value)
        else p.hasFile && b.decoded.Some? && b.offscreenOk
    ensures var t := LegacyRun(p, b, measure);
      t.result.Success? ==>
        t.state == Stopped && |t.events| >= 4 && t.events[1] == RecorderStart &&
        t.events[|t.events| - 2..] == [Wait(1000.0), RecorderStop]
  {
    var t := LegacyRun(p, b, measure);
    var opening := [FillRect(p.background, Rect(0.0, 0.0, p.width, p.height)), RecorderStart];
    var closing := [Wait(1000.0), RecorderStop];
    if p.inputType.None? || !b.contextOk {
    } else if p.inputType == Some(Text) {
      if p.text.None? || IsBlank(p.text.value) {
        assert t.events == opening + [RecorderStop];
      } else {
        var chars := p.text.value;
        SuccessShape(opening, TextEvents(chars, measure, p.width, 1000.0 / p.fps, |chars|), closing, t.events);
      }
    } else if !p.hasFile || (!b.offscreenOk && b.decoded.Some?) {
      assert t.events == opening + [RecorderStop];
    } else if b.decoded.None? {
      assert t.events == opening;
    } else if p.rows == 0 || p.cols == 0 {
      SuccessShape(opening, [], closing, t.events);
    } else {
      var st := MakeSetup(p, b.decoded.value);
      SuccessShape(opening, PlanEvents(st, LegacyPlan(p.selected, p.rows, p.cols)), closing, t.events);
    }
  }

  /** A run that opens, does its body and closes starts the recorder second and ends with the closing. */
  lemma SuccessShape(opening: seq<Event>, body: seq<Event>, closing: seq<Event>, events: seq<Event>)
    requires |opening| == 2 && |closing| == 2 && events == opening + body + closing
    ensures |events| >= 4 && events[1] == opening[1] && events[|events| - 2..] == closing
  {
    assert events[|events| - 2..] == closing;
  }

  /**
   * A successful image run sweeps the legacy plan; with nothing selected that is the whole grid
   * in raster order, twice. With no rows or no columns (and so nothing selected) the plan is
   * empty and the video is the background, one second long.
   */
  lemma RunSweepsPlan(p: LegacyParams, b: Browser, measure: char -> real)
    requires ParamsOk(p, b) && LegacyRun(p, b, measure).result.Success? && p.inputType == Some(Bmp)
    ensures p.rows > 0 && p.cols > 0 ==>
      var st := MakeSetup(p, b.decoded.value);
      LegacyRun(p, b, measure).events ==
        [FillRect(p.background, Rect(0.0, 0.0, p.width, p.height)), RecorderStart] +
        PlanEvents(st, LegacyPlan(p.selected, p.rows, p.cols)) + [Wait(1000.0), RecorderStop]
    ensures p.selected == [] ==>
      LegacyPlan(p.selected, p.rows, p.cols) == AllBlocks(p.rows, p.cols) + AllBlocks(p.rows, p.cols)
    ensures p.rows == 0 || p.cols == 0 ==>
      LegacyPlan(p.selected, p.rows, p.cols) == [] &&
      LegacyRun(p, b, measure).events ==
        [FillRect(p.background, Rect(0.0, 0.0, p.width, p.height)), RecorderStart, Wait(1000.0), RecorderStop]
  {
    if p.rows == 0 || p.cols == 0 {
      BlankGridPlan(p.selected, p.rows, p.cols);
    }
    if p.selected == [] {
      LegacyEmptySelectionSweepsTwice(p.rows, p.cols);
    }
  }
}
