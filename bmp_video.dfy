/**
 * The block renderer of src/shared/utils/generateVideoBMP.tsx: the image is fitted into the
 * frame, cut into a rows x cols grid, and every block is revealed by a sweep of growing partial
 * copies in the chosen direction, chosen blocks first, then the others, each finished with one
 * full copy of the block.
 */
module BmpVideo {
  import opened Results
  import opened JsBuiltins
  import opened BlockIds
  import opened Geometry
  import opened Capture
  import opened RevealPlan

  /** The caller's arguments, with the defaults of the source already applied. */
  datatype BmpParams = BmpParams(
    hasInputType: bool,     // inputType is 'bmp' rather than null
    hasFile: bool,          // bmpFile is given
    rows: nat,
    cols: nat,
    selected: seq<string>,
    dir: Direction,
    width: real,            // hieghtVideo, which sizes the canvas width (default 1280)
    height: real,           // weightVideo, which sizes the canvas height (default 720)
    background: string,     // default "#fff"
    fps: real)              // default 120

  /**
   * A frame of non-negative size, a positive frame rate (the wait is `1000 / fps`) and a decoded
   * picture with area. Rows and columns may be 0: then the grid is empty.
   */
  predicate ParamsOk(p: BmpParams, b: Browser) {
    p.width >= 0.0 && p.height >= 0.0 && p.fps > 0.0 &&
    (b.decoded.Some? ==> b.decoded.value.width > 0.0 && b.decoded.value.height > 0.0)
  }

  /** Everything fixed before the first block is drawn. */
  datatype Setup = Setup(
    img: Image, rows: nat, cols: nat, dir: Direction, fit: Fit,
    blockW: real, blockH: real, chosen: seq<string>, wait: real)
  {
    /** A grid with rows and columns over a picture with area, cut into blocks with area. */
    predicate Valid() {
      rows > 0 && cols > 0 && img.width > 0.0 && img.height > 0.0 &&
      blockW > 0.0 && blockH > 0.0 &&
      fit.drawW >= 0.0 && fit.drawH >= 0.0
    }

    /** The block size is derived from the image as the generator computes it. */
    predicate FromImage()
      requires rows > 0 && cols > 0
    {
      blockW == img.width / cols as real && blockH == img.height / rows as real + 1.0
    }
  }

  /**
   * Lines 68-92: the fit, `blockWidth = img.width / cols`, `blockHeight = img.height / rows + 1`,
   * the chosen blocks, and `videoSpeed = 1000 / fps`.
   */
  function MakeSetup(p: BmpParams, img: Image): (st: Setup)
    requires p.rows > 0 && p.cols > 0 && p.width >= 0.0 && p.height >= 0.0 && p.fps > 0.0
    requires img.width > 0.0 && img.height > 0.0
    ensures st.Valid() && st.FromImage()
    ensures st.chosen == BmpChosen(p.selected, AllBlocks(p.rows, p.cols))
  {
    Setup(img, p.rows, p.cols, p.dir, FitImage(p.width, p.height, img.width, img.height),
      img.width / p.cols as real,
      img.height / p.rows as real + 1.0,
      BmpChosen(p.selected, AllBlocks(p.rows, p.cols)),
      1000.0 / p.fps)
  }

  /** The source rectangle of a block in the offscreen copy of the image. */
  function SrcRect(st: Setup, cell: Cell): Rect {
    Rect(cell.col as real * st.blockW, cell.row as real * st.blockH, st.blockW, st.blockH)
  }

  /** The destination rectangle of a block on the frame: its cell of the fitted box. */
  function DestRect(st: Setup, cell: Cell): Rect
    requires st.Valid()
  {
    CellRect(st.fit.Box(), st.rows, st.cols, cell)
  }

  /** `Math.ceil` of the block's extent along the sweep. */
  function MaxLine(st: Setup): (m: int)
    requires st.Valid()
    ensures m >= 1
  {
    Ceil(if st.dir.TopBottom? || st.dir.BottomTop? then st.blockH else st.blockW)
  }

  /** The partial copy of sweep step i, for each direction (lines 118-128). */
  function StepDraw(st: Setup, cell: Cell, i: nat): Event
    requires st.Valid()
  {
    var src := SrcRect(st, cell);
    var dest := DestRect(st, cell);
    var ratio := (i + 1) as real / MaxLine(st) as real;
    var n := (i + 1) as real;
    match st.dir
    case TopBottom =>
      DrawImage(Rect(src.x, src.y, st.blockW, n), Rect(dest.x, dest.y, dest.w, dest.h * ratio))
    case BottomTop =>
      DrawImage(Rect(src.x, src.y + (st.blockH - i as real), st.blockW, n),
                Rect(dest.x, dest.y + dest.h * ((st.blockH - i as real) / st.blockH), dest.w, dest.h * ratio))
    case LeftRight =>
      DrawImage(Rect(src.x, src.y, n, st.blockH), Rect(dest.x, dest.y, dest.w * ratio, dest.h))
    case RightLeft =>
      DrawImage(Rect(src.x + (st.blockW - i as real - 1.0), src.y, n, st.blockH),
                Rect(dest.x + dest.w * ((st.blockW - i as real) / st.blockW), dest.y, dest.w * ratio, dest.h))
  }

  /** `((chosenBlocks.indexOf(blockId) + progressRatio) / totalBlocks) * 100`. */
  function Progress(st: Setup, id: string, i: nat): real
    requires st.Valid()
  {
    var total := (st.rows * st.cols) as real;
    assert total > 0.0 by { MulAtLeast(st.rows, st.cols); }
    ((IndexOf(st.chosen, id) as real + (i + 1) as real / MaxLine(st) as real) / total) * 100.0
  }

  /**
   * One sweep step: the partial copy, the progress report, the frame wait. An id that names no
   * cell gives NaN coordinates, and `drawImage` with a NaN argument paints nothing.
   */
  function StepEvents(st: Setup, id: string, cell: Option<Cell>, i: nat): seq<Event>
    requires st.Valid()
  {
    (if cell.Some? then [StepDraw(st, cell.value, i)] else []) + [Percent(Progress(st, id, i)), Wait(st.wait)]
  }

  /** The first k sweep steps of a block. */
  function SweepEvents(st: Setup, id: string, cell: Option<Cell>, k: nat): seq<Event>
    requires st.Valid()
  {
    if k == 0 then [] else SweepEvents(st, id, cell, k - 1) + StepEvents(st, id, cell, k - 1)
  }

  /** The full copy of a block into its cell. */
  function FullDraw(st: Setup, cell: Cell): Event
    requires st.Valid()
  {
    DrawImage(SrcRect(st, cell), DestRect(st, cell))
  }

  /** The closing full copy, for an id that names a cell. */
  function FullEvents(st: Setup, cell: Option<Cell>): seq<Event>
    requires st.Valid()
  {
    if cell.Some? then [FullDraw(st, cell.value)] else []
  }

  /** What `drawBlock(id, animate)` paints: the sweep steps 0..maxLine, then the full copy. */
  function BlockEvents(st: Setup, id: string, animate: bool): seq<Event>
    requires st.Valid()
  {
    var cell := ParseBlockId(id);
    if animate then SweepEvents(st, id, cell, MaxLine(st) + 1) + FullEvents(st, cell)
    else FullEvents(st, cell)
  }

  /** The blocks of ids drawn one after another, animated. */
  function PlanEvents(st: Setup, ids: seq<string>): seq<Event>
    requires st.Valid()
  {
    if |ids| == 0 then []
    else PlanEvents(st, ids[..|ids| - 1]) + BlockEvents(st, ids[|ids| - 1], true)
  }

  /** The whole run, error paths included (lines 28-143). */
  function BmpRun(p: BmpParams, b: Browser): Trace
    requires ParamsOk(p, b)
  {
    if !p.hasInputType then Trace([], Idle, Failure(NoInputType))
    else if !b.contextOk then Trace([], Idle, Failure(NoContext))
    else
      var opening := [FillRect(p.background, Rect(0.0, 0.0, p.width, p.height)), RecorderStart];
      if !p.hasFile then Trace(opening + [RecorderStop], Stopped, Failure(NoBmpFile))
      else if b.decoded.None? then Trace(opening, Recording, Failure(DecodeFailed))
      else if !b.offscreenOk then Trace(opening, Recording, Failure(NoOffscreenContext))
      else if p.rows == 0 || p.cols == 0 then
        // `rows * cols` is 0: `allBlocks` and both block lists are empty, the block sizes (a
        // division by 0) are never read, and the video is the background alone.
        Trace(opening + [Wait(1000.0), RecorderStop], Stopped, Success(()))
      else
        var st := MakeSetup(p, b.decoded.value);
        var plan := BmpPlan(p.selected, p.rows, p.cols);
        Trace(opening + PlanEvents(st, plan) + [Wait(1000.0), RecorderStop], Stopped, Success(()))
  }

  // ---------------------------------------------------------------------------------------
  // The renderer

  /** `drawBlock(blockId, animate)` on the recording canvas. */
  method DrawBlock(s: Session, st: Setup, id: string, animate: bool)
    requires st.Valid()
    modifies s
    ensures s.events == old(s.events) + BlockEvents(st, id, animate) && s.state == old(s.state)
  {
    var cell := ParseBlockId(id);
    if !animate {
      FullCopy(s, st, cell);
      return;
    }
    var maxLine := Ceil(if st.dir == TopBottom || st.dir == BottomTop then st.blockH else st.blockW);
    assert maxLine == MaxLine(st);
    var total := st.rows * st.cols;
    var i := 0;
    while i <= maxLine
      invariant 0 <= i <= maxLine + 1
      invariant s.events == old(s.events) + SweepEvents(st, id, cell, i)
      invariant s.state == old(s.state)
    {
      StepOnce(s, st, id, cell, i, maxLine, total);
      AppendAssoc(old(s.events), SweepEvents(st, id, cell, i), StepEvents(st, id, cell, i));
      i := i + 1;
    }
    FullCopy(s, st, cell);
  }

  /** One pass of the sweep loop: the partial copy, the progress report, the frame wait. */
  method StepOnce(s: Session, st: Setup, id: string, cell: Option<Cell>, i: nat, maxLine: int, total: int)
    requires st.Valid() && maxLine == MaxLine(st) && total == st.rows * st.cols
    modifies s
    ensures s.events == old(s.events) + StepEvents(st, id, cell, i) && s.state == old(s.state)
  {
    var ratio := (i + 1) as real / maxLine as real;
    if cell.Some? {
      var draw := SweepStep(st, cell.value, i, ratio);
      s.Emit(draw);
    }
    MulAtLeast(st.rows, st.cols);
    var percent := ((IndexOf(st.chosen, id) as real + ratio) / total as real) * 100.0;
    assert percent == Progress(st, id, i);
    s.Emit(Percent(percent));
    s.Emit(Wait(st.wait));
  }

  /** The partial copy of one sweep step, by direction (lines 99-104 and 120-128). */
  method SweepStep(st: Setup, cell: Cell, i: nat, ratio: real) returns (draw: Event)
    requires st.Valid() && ratio == (i + 1) as real / MaxLine(st) as real
    ensures draw == StepDraw(st, cell, i)
  {
    var src := SrcRect(st, cell);
    var dest := DestRect(st, cell);
    var srcX, srcY := src.x, src.y;
    var destX, destY, destW, destH := dest.x, dest.y, dest.w, dest.h;
    if st.dir == TopBottom {
      draw := DrawImage(Rect(srcX, srcY, st.blockW, (i + 1) as real), Rect(destX, destY, destW, destH * ratio));
    } else if st.dir == BottomTop {
      draw := DrawImage(Rect(srcX, srcY + (st.blockH - i as real), st.blockW, (i + 1) as real),
                        Rect(destX, destY + destH * ((st.blockH - i as real) / st.blockH), destW, destH * ratio));
    } else if st.dir == LeftRight {
      draw := DrawImage(Rect(srcX, srcY, (i + 1) as real, st.blockH), Rect(destX, destY, destW * ratio, destH));
    } else {
      draw := DrawImage(Rect(srcX + (st.blockW - i as real - 1.0), srcY, (i + 1) as real, st.blockH),
                        Rect(destX + destW * ((st.blockW - i as real) / st.blockW), destY, destW * ratio, destH));
    }
  }

  /** The full copy of the block (line 133), painted only when the id names a cell. */
  method FullCopy(s: Session, st: Setup, cell: Option<Cell>)
    requires st.Valid()
    modifies s
    ensures s.events == old(s.events) + FullEvents(st, cell) && s.state == old(s.state)
  {
    if cell.Some? {
      var c := cell.value;
      var destW, destH := st.fit.drawW / st.cols as real, st.fit.drawH / st.rows as real;
      var draw := DrawImage(Rect(c.col as real * st.blockW, c.row as real * st.blockH, st.blockW, st.blockH),
                            Rect(st.fit.offX + destW * c.col as real, st.fit.offY + destH * c.row as real, destW, destH));
      assert draw == FullDraw(st, c);
      s.Emit(draw);
    }
  }

  /** `for (const blockId of ids) await drawBlock(blockId)`. */
  method DrawBlocks(s: Session, st: Setup, ids: seq<string>)
    requires st.Valid()
    modifies s
    ensures s.events == old(s.events) + PlanEvents(st, ids) && s.state == old(s.state)
  {
    for k := 0 to |ids|
      invariant s.events == old(s.events) + PlanEvents(st, ids[..k]) && s.state == old(s.state)
    {
      DrawBlock(s, st, ids[k], true);
      assert PlanEvents(st, ids[..k + 1]) == PlanEvents(st, ids[..k]) + BlockEvents(st, ids[k], true) by {
        assert ids[..k + 1][..k] == ids[..k];
      }
      AppendAssoc(old(s.events), PlanEvents(st, ids[..k]), BlockEvents(st, ids[k], true));
    }
    assert ids[..|ids|] == ids;
  }

  /** The sweeps of the chosen blocks, then of the others (lines 85-92 and 136-137). */
  method SweepPlan(s: Session, p: BmpParams, st: Setup)
    requires st.Valid() && p.rows > 0 && p.cols > 0
    requires st.chosen == BmpChosen(p.selected, AllBlocks(p.rows, p.cols))
    modifies s
    ensures s.events == old(s.events) + PlanEvents(st, BmpPlan(p.selected, p.rows, p.cols))
    ensures s.state == old(s.state)
  {
    var all := BuildAllBlocks(p.rows, p.cols);
    var chosen := BmpChosen(p.selected, all);
    var notChosen := BmpNotChosen(all, chosen);
    PlanEventsSplit(st, p.selected, p.rows, p.cols);
    ghost var start := s.events;
    DrawBlocks(s, st, chosen);
    DrawBlocks(s, st, notChosen);
    AppendAssoc(start, PlanEvents(st, chosen), PlanEvents(st, notChosen));
  }

  /** `generateVideoBMP`: the session holds what was painted and the recorder's final state. */
  method GenerateVideoBmp(p: BmpParams, b: Browser) returns (s: Session, result: Result<(), GenError>)
    requires ParamsOk(p, b)
    ensures fresh(s)
    ensures s.events == BmpRun(p, b).events && s.state == BmpRun(p, b).state
    ensures result == BmpRun(p, b).result
  {
    s := new Session();
    if !p.hasInputType {
      return s, Failure(NoInputType);
    }
    if !b.contextOk {
      return s, Failure(NoContext);
    }
    s.Emit(FillRect(p.background, Rect(0.0, 0.0, p.width, p.height)));
    s.Start();
    if !p.hasFile {
      s.Stop();
      return s, Failure(NoBmpFile);
    }
    if b.decoded.None? {
      return s, Failure(DecodeFailed);
    }
    if !b.offscreenOk {
      return s, Failure(NoOffscreenContext);
    }
    assert s.events == [FillRect(p.background, Rect(0.0, 0.0, p.width, p.height)), RecorderStart];
    if p.rows == 0 || p.cols == 0 {
      // An empty grid: no block to sweep, only the closing second and the stop.
      s.Emit(Wait(1000.0));
      s.Stop();
      return s, Success(());
    }
    var st := MakeSetup(p, b.decoded.value);
    RecordPlan(s, p, st);
    return s, Success(());
  }

  /** The sweeps, the closing second and the stop of the recorder (lines 136-143). */
  method RecordPlan(s: Session, p: BmpParams, st: Setup)
    requires st.Valid() && p.rows > 0 && p.cols > 0
    requires st.chosen == BmpChosen(p.selected, AllBlocks(p.rows, p.cols))
    requires s.state == Recording
    modifies s
    ensures s.events == old(s.events) + PlanEvents(st, BmpPlan(p.selected, p.rows, p.cols)) + [Wait(1000.0), RecorderStop]
    ensures s.state == Stopped
  {
    ghost var opening := s.events;
    ghost var sweeps := PlanEvents(st, BmpPlan(p.selected, p.rows, p.cols));
    SweepPlan(s, p, st);
    s.Emit(Wait(1000.0));
    s.Stop();
    assert s.events == opening + sweeps + [Wait(1000.0)] + [RecorderStop];
    AppendAssoc(opening + sweeps, [Wait(1000.0)], [RecorderStop]);
  }

  // ---------------------------------------------------------------------------------------
  // Properties

  lemma PlanEventsSplit(st: Setup, selected: seq<string>, rows: nat, cols: nat)
    requires st.Valid()
    ensures var all := AllBlocks(rows, cols);
      var chosen := BmpChosen(selected, all);
      PlanEvents(st, BmpPlan(selected, rows, cols)) ==
        PlanEvents(st, chosen) + PlanEvents(st, BmpNotChosen(all, chosen))
  {
    var all := AllBlocks(rows, cols);
    var chosen := BmpChosen(selected, all);
    PlanEventsAppend(st, chosen, BmpNotChosen(all, chosen));
  }

  /** Every id of the plan is a block of the grid, so it parses, and the grid is then non-empty. */
  lemma PlanInGrid(selected: seq<string>, rows: nat, cols: nat)
    ensures forall i :: 0 <= i < |BmpPlan(selected, rows, cols)| ==>
      ParseBlockId(BmpPlan(selected, rows, cols)[i]).Some? &&
      InGrid(ParseBlockId(BmpPlan(selected, rows, cols)[i]).value, rows, cols)
  {
    var plan := BmpPlan(selected, rows, cols);
    forall i | 0 <= i < |plan|
      ensures ParseBlockId(plan[i]).Some? && InGrid(ParseBlockId(plan[i]).value, rows, cols)
    {
      assert plan[i] in AllBlocks(rows, cols);
      AllBlocksMembership(rows, cols, plan[i]);
    }
  }

  lemma {:induction false} PlanEventsAppend(st: Setup, a: seq<string>, b: seq<string>)
    requires st.Valid()
    ensures PlanEvents(st, a + b) == PlanEvents(st, a) + PlanEvents(st, b)
    decreases |b|
  {
    if |b| > 0 {
      var b' := b[..|b| - 1];
      var last := BlockEvents(st, b[|b| - 1], true);
      assert (a + b)[..|a + b| - 1] == a + b';
      assert (a + b)[|a + b| - 1] == b[|b| - 1];
      calc {
        PlanEvents(st, a + b);
        PlanEvents(st, a + b') + last;
        { PlanEventsAppend(st, a, b'); }
        PlanEvents(st, a) + PlanEvents(st, b') + last;
        { AppendAssoc(PlanEvents(st, a), PlanEvents(st, b'), last); }
        PlanEvents(st, a) + PlanEvents(st, b);
      }
    } else {
      assert a + b == a;
    }
  }

  /** A sweep of k steps is k triples: partial copy i, progress of step i, one frame wait. */
  lemma {:induction false} SweepShape(st: Setup, id: string, cell: Cell, k: nat)
    requires st.Valid()
    ensures |SweepEvents(st, id, Some(cell), k)| == 3 * k
    ensures forall i :: 0 <= i < k ==>
      SweepEvents(st, id, Some(cell), k)[3 * i] == StepDraw(st, cell, i) &&
      SweepEvents(st, id, Some(cell), k)[3 * i + 1] == Percent(Progress(st, id, i)) &&
      SweepEvents(st, id, Some(cell), k)[3 * i + 2] == Wait(st.wait)
  {
    if k > 0 {
      SweepShape(st, id, cell, k - 1);
      var prev := SweepEvents(st, id, Some(cell), k - 1);
      var step := StepEvents(st, id, Some(cell), k - 1);
      var all := SweepEvents(st, id, Some(cell), k);
      assert all == prev + step;
      assert step == [StepDraw(st, cell, k - 1), Percent(Progress(st, id, k - 1)), Wait(st.wait)];
      forall i | 0 <= i < k
        ensures all[3 * i] == StepDraw(st, cell, i) && all[3 * i + 1] == Percent(Progress(st, id, i)) &&
                all[3 * i + 2] == Wait(st.wait)
      {
        if i < k - 1 {
          assert all[3 * i] == prev[3 * i] && all[3 * i + 1] == prev[3 * i + 1] && all[3 * i + 2] == prev[3 * i + 2];
        }
      }
    }
  }

  /** For an id that names no cell the k steps paint nothing: k pairs of progress and wait. */
  lemma {:induction false} SweepWithoutCell(st: Setup, id: string, k: nat)
    requires st.Valid()
    ensures |SweepEvents(st, id, None, k)| == 2 * k
    ensures forall i :: 0 <= i < k ==>
      SweepEvents(st, id, None, k)[2 * i] == Percent(Progress(st, id, i)) &&
      SweepEvents(st, id, None, k)[2 * i + 1] == Wait(st.wait)
  {
    if k > 0 {
      SweepWithoutCell(st, id, k - 1);
    }
  }

  /**
   * An animated block takes maxLine + 1 sweep steps, where maxLine is the block's extent along the
   * sweep rounded up, and ends with the full copy of the block into its cell.
   */
  lemma BlockShape(st: Setup, id: string)
    requires st.Valid() && ParseBlockId(id).Some?
    ensures var m := MaxLine(st);
      var extent := if st.dir.TopBottom? || st.dir.BottomTop? then st.blockH else st.blockW;
      extent <= m as real < extent + 1.0 &&
      |BlockEvents(st, id, true)| == 3 * (m + 1) + 1 &&
      BlockEvents(st, id, true)[3 * m] == StepDraw(st, ParseBlockId(id).value, m) &&
      BlockEvents(st, id, true)[3 * (m + 1)] == FullDraw(st, ParseBlockId(id).value)
  {
    SweepShape(st, id, ParseBlockId(id).value, MaxLine(st) + 1);
  }

  /**
   * A block whose id names no cell draws nothing at all, but still reports progress and waits
   * maxLine + 1 times.
   */
  lemma UnknownBlockDrawsNothing(st: Setup, id: string)
    requires st.Valid() && ParseBlockId(id).None?
    ensures |BlockEvents(st, id, true)| == 2 * (MaxLine(st) + 1)
    ensures forall e :: e in BlockEvents(st, id, true) ==> !e.DrawImage?
  {
    var k := MaxLine(st) + 1;
    SweepWithoutCell(st, id, k);
    var evs := BlockEvents(st, id, true);
    forall e | e in evs
      ensures !e.DrawImage?
    {
      var j :| 0 <= j < |evs| && evs[j] == e;
      assert j == 2 * (j / 2) + j % 2;
    }
  }

  /**
   * Block (r, c) is read from the image starting r pixels below the r-th band of height
   * img.height / rows, because of the `+ 1` in `blockHeight`; the last row's source window ends
   * `rows` pixels below the image.
   */
  lemma SourceRowsShifted(st: Setup, cell: Cell)
    requires st.Valid() && st.FromImage() && InGrid(cell, st.rows, st.cols)
    ensures SrcRect(st, cell).y == cell.row as real * (st.img.height / st.rows as real) + cell.row as real
    ensures cell.row + 1 == st.rows ==> SrcRect(st, cell).Bottom() == st.img.height + st.rows as real
  {
    var band := st.img.height / st.rows as real;
    assert band * st.rows as real == st.img.height;
    assert (cell.row + 1) as real * st.blockH == (cell.row + 1) as real * band + (cell.row + 1) as real;
  }

  /**
   * The final copies of the blocks tile the fitted box: each lies inside it, and two different
   * blocks never overlap.
   */
  lemma FullDrawsTile(st: Setup, a: Cell, b: Cell)
    requires st.Valid() && InGrid(a, st.rows, st.cols) && InGrid(b, st.rows, st.cols)
    ensures Inside(DestRect(st, a), st.fit.Box())
    ensures a != b ==> Disjoint(DestRect(st, a), DestRect(st, b))
  {
    CellRectInside(st.fit.Box(), st.rows, st.cols, a);
    if a != b {
      CellRectsDisjoint(st.fit.Box(), st.rows, st.cols, a, b);
    }
  }

  /**
   * A top-bottom or left-right sweep keeps the block's top-left corner; step maxLine - 1 covers
   * exactly the block's cell, and the extra step maxLine reaches past it.
   */
  lemma ForwardSweepCoversCell(st: Setup, cell: Cell, i: nat)
    requires st.Valid() && (st.dir.TopBottom? || st.dir.LeftRight?)
    ensures StepDraw(st, cell, i).dest.x == DestRect(st, cell).x
    ensures StepDraw(st, cell, i).dest.y == DestRect(st, cell).y
    ensures i + 1 == MaxLine(st) ==> StepDraw(st, cell, i).dest == DestRect(st, cell)
    ensures i == MaxLine(st) && st.dir.TopBottom? && DestRect(st, cell).h > 0.0 ==>
      StepDraw(st, cell, i).dest.Bottom() > DestRect(st, cell).Bottom()
    ensures i == MaxLine(st) && st.dir.LeftRight? && DestRect(st, cell).w > 0.0 ==>
      StepDraw(st, cell, i).dest.Right() > DestRect(st, cell).Right()
  {
    var m := MaxLine(st) as real;
    var d := DestRect(st, cell);
    RatioFacts(d.h, m);
    RatioFacts(d.w, m);
  }

  /**
   * The first step of a bottom-top or right-left sweep is painted just outside the block's cell:
   * below its bottom edge, or right of its right edge.
   */
  lemma ReverseSweepStartsOutside(st: Setup, cell: Cell)
    requires st.Valid() && (st.dir.BottomTop? || st.dir.RightLeft?)
    ensures st.dir.BottomTop? ==> StepDraw(st, cell, 0).dest.y == DestRect(st, cell).Bottom()
    ensures st.dir.RightLeft? ==> StepDraw(st, cell, 0).dest.x == DestRect(st, cell).Right()
  {
    assert st.blockH / st.blockH == 1.0;
    assert st.blockW > 0.0;
    assert st.blockW / st.blockW == 1.0;
  }

  /**
   * Within a block the reported progress rises with every step; for the block at position j of
   * the chosen list it runs from (j + 1/maxLine) / total to (j + 1 + 1/maxLine) / total, times 100.
   */
  lemma ProgressWithinBlock(st: Setup, id: string, i: nat, i': nat)
    requires st.Valid() && i < i'
    ensures Progress(st, id, i) < Progress(st, id, i')
  {
    var m := MaxLine(st) as real;
    var total := (st.rows * st.cols) as real;
    MulAtLeast(st.rows, st.cols);
    var j := IndexOf(st.chosen, id) as real;
    DivLess((i + 1) as real, (i' + 1) as real, m);
    DivLess(j + (i + 1) as real / m, j + (i' + 1) as real / m, total);
  }

  /**
   * When every block is chosen, the last step of the last block reports more than 100 percent:
   * 100 + 100 / (maxLine * total).
   */
  lemma ProgressOvershoots(st: Setup)
    requires st.Valid() && |st.chosen| == st.rows * st.cols && Distinct(st.chosen)
    ensures Progress(st, st.chosen[|st.chosen| - 1], MaxLine(st)) > 100.0
  {
    MulAtLeast(st.rows, st.cols);
    var n := |st.chosen|;
    var last := st.chosen[n - 1];
    var j := IndexOf(st.chosen, last);
    assert st.chosen[j] == st.chosen[n - 1];
    assert j == n - 1;
    var m := MaxLine(st) as real;
    RatioFacts(1.0, m);
    assert (MaxLine(st) + 1) as real / m > 1.0;
    PercentAbove((n - 1) as real + (MaxLine(st) + 1) as real / m, n as real);
  }

  /**
   * A block that is not chosen has index -1, so its progress reports are at most 0 until the
   * sweep's last two steps, and negative before.
   */
  lemma ProgressOfNotChosen(st: Setup, id: string, i: nat)
    requires st.Valid() && id !in st.chosen && i + 1 < MaxLine(st)
    ensures Progress(st, id, i) < 0.0
  {
    var m := MaxLine(st) as real;
    MulAtLeast(st.rows, st.cols);
    DivLess((i + 1) as real, m, m);
    assert m / m == 1.0;
    DivLess((i + 1) as real / m - 1.0, 0.0, (st.rows * st.cols) as real);
  }

  /**
   * The recorder across the run: nothing is painted or recorded when the input type or the
   * context is missing; a missing file stops the recorder before throwing; a failed decode or a
   * missing offscreen context throws with the recorder still recording; a successful run paints
   * the background, starts, sweeps the plan, waits one second and stops.
   */
  lemma RecorderLifecycle(p: BmpParams, b: Browser)
    requires ParamsOk(p, b)
    ensures var t := BmpRun(p, b);
      (t.result == Failure(NoInputType) || t.result == Failure(NoContext)) <==> (t.events == [] && t.state == Idle)
    ensures var t := BmpRun(p, b);
      t.result == Failure(NoBmpFile) ==> t.state == Stopped && t.events[|t.events| - 1] == RecorderStop
    ensures var t := BmpRun(p, b);
      (t.result == Failure(DecodeFailed) || t.result == Failure(NoOffscreenContext)) ==>
        t.state == Recording && RecorderStop !in t.events
    ensures BmpRun(p, b).result.Success? <==>
      p.hasInputType && b.contextOk && p.hasFile && b.decoded.Some? && b.offscreenOk
    ensures var t := BmpRun(p, b);
      t.result.Success? ==>
        t.state == Stopped && |t.events| >= 4 && t.events[1] == RecorderStart &&
        t.events[|t.events| - 2..] == [Wait(1000.0), RecorderStop]
  {
    var t := BmpRun(p, b);
    var opening := [FillRect(p.background, Rect(0.0, 0.0, p.width, p.height)), RecorderStart];
    if !p.hasInputType || !b.contextOk {
    } else if !p.hasFile {
      assert t.events == opening + [RecorderStop];
    } else if b.decoded.None? || !b.offscreenOk {
      assert t.events == opening;
    } else if p.rows == 0 || p.cols == 0 {
      assert t.events == opening + [Wait(1000.0), RecorderStop];
    } else {
      var body := PlanEvents(MakeSetup(p, b.decoded.value), BmpPlan(p.selected, p.rows, p.cols));
      var closing := [Wait(1000.0), RecorderStop];
      assert t.events == opening + body + closing;
      assert t.events[1] == RecorderStart;
      assert t.events[|t.events| - 2..] == closing;
    }
  }

  /**
   * A successful run sweeps the blocks in plan order; for a selection without repeats that is
   * every block of the grid exactly once, and with nothing selected it is raster order. With no
   * rows or no columns the plan is empty and the video is the background, one second long.
   */
  lemma RunSweepsPlan(p: BmpParams, b: Browser)
    requires ParamsOk(p, b) && BmpRun(p, b).result.Success?
    ensures p.rows > 0 && p.cols > 0 ==>
      var plan := BmpPlan(p.selected, p.rows, p.cols);
      var st := MakeSetup(p, b.decoded.value);
      BmpRun(p, b).events ==
        [FillRect(p.background, Rect(0.0, 0.0, p.width, p.height)), RecorderStart] +
        PlanEvents(st, plan) + [Wait(1000.0), RecorderStop]
    ensures var plan := BmpPlan(p.selected, p.rows, p.cols);
      forall i :: 0 <= i < |plan| ==>
        ParseBlockId(plan[i]).Some? && InGrid(ParseBlockId(plan[i]).value, p.rows, p.cols)
    ensures Distinct(p.selected) ==>
      multiset(BmpPlan(p.selected, p.rows, p.cols)) == multiset(AllBlocks(p.rows, p.cols))
    ensures p.selected == [] ==> BmpPlan(p.selected, p.rows, p.cols) == AllBlocks(p.rows, p.cols)
    ensures p.rows == 0 || p.cols == 0 ==>
      BmpPlan(p.selected, p.rows, p.cols) == [] &&
      BmpRun(p, b).events ==
        [FillRect(p.background, Rect(0.0, 0.0, p.width, p.height)), RecorderStart, Wait(1000.0), RecorderStop]
  {
    if p.rows == 0 || p.cols == 0 {
      BlankGridPlan(p.selected, p.rows, p.cols);
    }
    PlanInGrid(p.selected, p.rows, p.cols);
    if Distinct(p.selected) {
      BmpPlanIsPermutation(p.selected, p.rows, p.cols);
    }
    if p.selected == [] {
      BmpEmptySelection(p.rows, p.cols);
    }
  }
}
