/**
 * `generateVideoText` of src/shared/utils/GenerateVideoText.tsx: the layout, the frame painting
 * and the scroll of GenerateVideoText.ts, a frame wait of 1500 / fps, and a `paintedChars`
 * counter: after a '.' that ends a run of at least four painted characters, the video holds for
 * five seconds and the counter starts again from zero.
 */
module PacedTextVideo {
  import opened JsBuiltins
  import opened Geometry
  import opened Capture
  import opened TextLayout
  import opened TextVideo

  const PauseMs: real := 5000.0
  const MinRun: nat := 4

  /** `paintedChars` after k frames. */
  function Painted(glyphs: seq<Glyph>, k: nat): nat
    requires k <= |glyphs|
  {
    if k == 0 then 0
    else
      var c := Painted(glyphs, k - 1) + 1;
      if glyphs[k - 1].ch == '.' && c >= MinRun then 0 else c
  }

  /** Frame i holds: its character is '.' and, counting it, at least four were painted since the last hold. */
  predicate Holds(glyphs: seq<Glyph>, i: nat)
    requires i < |glyphs|
  {
    glyphs[i].ch == '.' && Painted(glyphs, i) + 1 >= MinRun
  }

  /** How many of the first k frames hold. */
  function HoldCount(glyphs: seq<Glyph>, k: nat): nat
    requires k <= |glyphs|
  {
    if k == 0 then 0 else HoldCount(glyphs, k - 1) + (if Holds(glyphs, k - 1) then 1 else 0)
  }

  /** The waits of frame i: 1500 / fps, then the hold if any. */
  function FrameWaits(glyphs: seq<Glyph>, fps: real, i: nat): seq<Event>
    requires i < |glyphs| && fps > 0.0
  {
    [Wait(1500.0 / fps)] + (if Holds(glyphs, i) then [Wait(PauseMs)] else [])
  }

  /** Frame i: the paint, the waits, the report (i + 1, n). */
  function PacedFrameEvents(glyphs: seq<Glyph>, canvasW: real, canvasH: real, fps: real, i: nat): seq<Event>
    requires i < |glyphs| && fps > 0.0
  {
    FramePaint(glyphs, canvasW, canvasH, i) + FrameWaits(glyphs, fps, i) + [FrameDone(i + 1, |glyphs|)]
  }

  function PacedFrames(glyphs: seq<Glyph>, canvasW: real, canvasH: real, fps: real, k: nat): seq<Event>
    requires k <= |glyphs| && fps > 0.0
  {
    if k == 0 then []
    else PacedFrames(glyphs, canvasW, canvasH, fps, k - 1) + PacedFrameEvents(glyphs, canvasW, canvasH, fps, k - 1)
  }

  /** The whole run: background, start, the frames, a wait of 2000 / fps, stop. */
  function PacedRun(text: string, widths: seq<real>, fps: real, canvasW: real, canvasH: real): seq<Event>
    requires |widths| == |text| && fps > 0.0
  {
    var glyphs := Layout(text, widths, canvasW, Pen(Margin, LineHeight), |text|);
    [FillRect("#ffffff", Rect(0.0, 0.0, canvasW, canvasH)), RecorderStart] +
    PacedFrames(glyphs, canvasW, canvasH, fps, |glyphs|) + [Wait(2000.0 / fps), RecorderStop]
  }

  /** One pass of the frame loop (lines 59-92). */
  method PacedFrame(s: Session, glyphs: seq<Glyph>, canvasW: real, canvasH: real, fps: real,
                    scroll: real, painted: nat, i: nat)
    returns (nextScroll: real, nextPainted: nat)
    requires i < |glyphs| && fps > 0.0
    requires scroll == Scroll(glyphs, canvasH, i) && painted == Painted(glyphs, i)
    modifies s
    ensures nextScroll == Scroll(glyphs, canvasH, i + 1) && nextPainted == Painted(glyphs, i + 1)
    ensures s.events == old(s.events) + PacedFrameEvents(glyphs, canvasW, canvasH, fps, i)
    ensures s.state == old(s.state)
  {
    DrawFrame(s, glyphs, canvasW, canvasH, scroll, i);
    nextScroll := scroll;
    var g := glyphs[i];
    if g.y - scroll > canvasH - LineHeight * 2.0 {
      nextScroll := scroll + LineHeight;
    }
    s.Emit(Wait(1500.0 / fps));
    nextPainted := painted + 1;
    ghost var hold: seq<Event> := [];
    if glyphs[i].ch == '.' && nextPainted >= MinRun {
      s.Emit(Wait(PauseMs));
      nextPainted := 0;
      hold := [Wait(PauseMs)];
    }
    s.Emit(FrameDone(i + 1, |glyphs|));
    ghost var paint := FramePaint(glyphs, canvasW, canvasH, i);
    assert s.events == old(s.events) + paint + ([Wait(1500.0 / fps)] + hold) + [FrameDone(i + 1, |glyphs|)];
  }

  /** `generateVideoText` of GenerateVideoText.tsx. */
  method GeneratePacedVideoText(text: string, widths: seq<real>, fps: real, canvasW: real, canvasH: real)
    returns (s: Session)
    requires |widths| == |text| && fps > 0.0
    ensures fresh(s)
    ensures s.events == PacedRun(text, widths, fps, canvasW, canvasH) && s.state == Stopped
  {
    s := new Session();
    s.Emit(FillRect("#ffffff", Rect(0.0, 0.0, canvasW, canvasH)));
    var positions := LayoutChars(text, widths, canvasW);
    s.Start();
    ghost var opening := s.events;
    ghost var frames := PacedFrames(positions, canvasW, canvasH, fps, |positions|);
    DrawPacedFrames(s, positions, canvasW, canvasH, fps);
    s.Emit(Wait(2000.0 / fps));
    s.Stop();
    assert s.events == opening + frames + [Wait(2000.0 / fps)] + [RecorderStop];
    AppendAssoc(opening + frames, [Wait(2000.0 / fps)], [RecorderStop]);
  }

  /** The frame loop (lines 59-92): one frame per glyph, with the scroll offset and the counter carried along. */
  method DrawPacedFrames(s: Session, positions: seq<Glyph>, canvasW: real, canvasH: real, fps: real)
    requires fps > 0.0
    modifies s
    ensures s.events == old(s.events) + PacedFrames(positions, canvasW, canvasH, fps, |positions|) && s.state == old(s.state)
  {
    var scroll := 0.0;
    var painted := 0;
    for i := 0 to |positions|
      invariant scroll == Scroll(positions, canvasH, i) && painted == Painted(positions, i)
      invariant s.events == old(s.events) + PacedFrames(positions, canvasW, canvasH, fps, i) && s.state == old(s.state)
    {
      scroll, painted := PacedFrame(s, positions, canvasW, canvasH, fps, scroll, painted, i);
      AppendAssoc(old(s.events), PacedFrames(positions, canvasW, canvasH, fps, i), PacedFrameEvents(positions, canvasW, canvasH, fps, i));
    }
  }

  // ---------------------------------------------------------------------------------------
  // Properties

  /**
   * The counter rises by one per character and drops to 0 exactly on a hold: a '.' that comes
   * when at least three characters were painted since the last hold. A '.' earlier than that
   * neither holds nor resets the counter.
   */
  lemma CounterRule(glyphs: seq<Glyph>, k: nat)
    requires k < |glyphs|
    ensures Holds(glyphs, k) <==> glyphs[k].ch == '.' && Painted(glyphs, k) >= 3
    ensures Holds(glyphs, k) ==> Painted(glyphs, k + 1) == 0
    ensures !Holds(glyphs, k) ==> Painted(glyphs, k + 1) == Painted(glyphs, k) + 1
    ensures Painted(glyphs, k) < 3 ==> !Holds(glyphs, k) && Painted(glyphs, k + 1) == Painted(glyphs, k) + 1
  {
  }

  /**
   * At least four characters are painted per hold: four times the holds plus the current count
   * never exceeds the frames so far, so n characters hold at most n / 4 times.
   */
  lemma {:induction false} HoldBound(glyphs: seq<Glyph>, k: nat)
    requires k <= |glyphs|
    ensures 4 * HoldCount(glyphs, k) + Painted(glyphs, k) <= k
    ensures HoldCount(glyphs, k) <= k / 4
  {
    if k > 0 {
      HoldBound(glyphs, k - 1);
    }
  }

  /** Frame i reports (i + 1, n) once. */
  lemma PacedFrameReport(glyphs: seq<Glyph>, canvasW: real, canvasH: real, fps: real, i: nat)
    requires i < |glyphs| && fps > 0.0
    ensures Filter(PacedFrameEvents(glyphs, canvasW, canvasH, fps, i), IsReport) == [FrameDone(i + 1, |glyphs|)]
  {
    var paint := FramePaint(glyphs, canvasW, canvasH, i);
    var waits := FrameWaits(glyphs, fps, i);
    var last := [FrameDone(i + 1, |glyphs|)];
    PaintReportsNothing(glyphs, canvasW, canvasH, i);
    assert Filter(waits, IsReport) == [] by {
      FilterDropsAll(waits, IsReport);
    }
    assert Filter(last, IsReport) == last by {
      assert last[1..] == [];
    }
    ReportsOfTail(paint, waits, last);
  }

  /** The report of frame i comes after the frame wait and, on a hold, after the five-second hold. */
  lemma PacedFrameTail(glyphs: seq<Glyph>, canvasW: real, canvasH: real, fps: real, i: nat)
    requires i < |glyphs| && fps > 0.0
    ensures var f := PacedFrameEvents(glyphs, canvasW, canvasH, fps, i);
      var n := |FramePaint(glyphs, canvasW, canvasH, i)|;
      f[n] == Wait(1500.0 / fps) && f[|f| - 1] == FrameDone(i + 1, |glyphs|) &&
      (Holds(glyphs, i) <==> |f| == n + 3) &&
      (Holds(glyphs, i) ==> f[n + 1] == Wait(PauseMs))
  {
  }

  /** The first k frames report (1, n), (2, n), ..., (k, n) and nothing else. */
  lemma {:induction false} PacedFramesReport(glyphs: seq<Glyph>, canvasW: real, canvasH: real, fps: real, k: nat)
    requires k <= |glyphs| && fps > 0.0
    ensures ReportsFrames(PacedFrames(glyphs, canvasW, canvasH, fps, k), k, |glyphs|)
  {
    if k > 0 {
      var prev := PacedFrames(glyphs, canvasW, canvasH, fps, k - 1);
      var frame := PacedFrameEvents(glyphs, canvasW, canvasH, fps, k - 1);
      PacedFramesReport(glyphs, canvasW, canvasH, fps, k - 1);
      PacedFrameReport(glyphs, canvasW, canvasH, fps, k - 1);
      ReportsSnoc(prev, frame, k, |glyphs|);
    }
  }
}
