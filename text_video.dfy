/**
 * `generateVideoText` of src/shared/utils/GenerateVideoText.ts: the text is laid out once; then
 * frame i clears the canvas, shifts it up by the scroll offset, repaints glyphs 0..i, draws the
 * hand above glyph i, scrolls one line when glyph i is low on the canvas, waits one frame and
 * reports (i + 1, n). The frame painting and the scroll are shared with the paced variant.
 */
module TextVideo {
  import opened JsBuiltins
  import opened Geometry
  import opened Capture
  import opened TextLayout

  /** The hand image is drawn 64 x 64, 45 pixels above the glyph's baseline point. */
  const HandSize: real := 64.0
  const HandLift: real := 45.0

  /** The glyphs are filled in black (`ctx.fillStyle = '#000000'`). */
  const Ink: string := "#000000"

  /** The scroll offset before frame k: one line more each time a glyph sits below `canvasHeight - 2 * lineHeight`. */
  function Scroll(glyphs: seq<Glyph>, canvasH: real, k: nat): real
    requires k <= |glyphs|
  {
    if k == 0 then 0.0
    else
      var s := Scroll(glyphs, canvasH, k - 1);
      if glyphs[k - 1].y - s > canvasH - LineHeight * 2.0 then s + LineHeight else s
  }

  /** `fillText` of every glyph, in order. */
  function GlyphEvents(color: string, glyphs: seq<Glyph>): (events: seq<Event>)
    ensures |events| == |glyphs|
  {
    if |glyphs| == 0 then []
    else
      var g := glyphs[|glyphs| - 1];
      GlyphEvents(color, glyphs[..|glyphs| - 1]) + [FillText(color, g.ch, g.x, g.y)]
  }

  /** What frame i paints: clear, save, shift, glyphs 0..i, the hand at glyph i, restore. */
  function FramePaint(glyphs: seq<Glyph>, canvasW: real, canvasH: real, i: nat): seq<Event>
    requires i < |glyphs|
  {
    var g := glyphs[i];
    [FillRect("#ffffff", Rect(0.0, 0.0, canvasW, canvasH)), Save, Translate(0.0, -Scroll(glyphs, canvasH, i))] +
    GlyphEvents(Ink, glyphs[..i + 1]) +
    [DrawHand(Rect(g.x, g.y - HandLift, HandSize, HandSize)), Restore]
  }

  /** Frame i of this file: the paint, a wait of 1000 / fps, the report (i + 1, n). */
  function FrameEvents(glyphs: seq<Glyph>, canvasW: real, canvasH: real, fps: real, i: nat): seq<Event>
    requires i < |glyphs| && fps > 0.0
  {
    FramePaint(glyphs, canvasW, canvasH, i) + [Wait(1000.0 / fps), FrameDone(i + 1, |glyphs|)]
  }

  function Frames(glyphs: seq<Glyph>, canvasW: real, canvasH: real, fps: real, k: nat): seq<Event>
    requires k <= |glyphs| && fps > 0.0
  {
    if k == 0 then [] else Frames(glyphs, canvasW, canvasH, fps, k - 1) + FrameEvents(glyphs, canvasW, canvasH, fps, k - 1)
  }

  /** The whole run: background, start, the frames, a wait of 2000 / fps, stop. */
  function TextVideoRun(text: string, widths: seq<real>, fps: real, canvasW: real, canvasH: real): seq<Event>
    requires |widths| == |text| && fps > 0.0
  {
    var glyphs := Layout(text, widths, canvasW, Pen(Margin, LineHeight), |text|);
    [FillRect("#ffffff", Rect(0.0, 0.0, canvasW, canvasH)), RecorderStart] +
    Frames(glyphs, canvasW, canvasH, fps, |glyphs|) + [Wait(2000.0 / fps), RecorderStop]
  }

  /** Paint frame i (lines 60-79): the inner loop repaints glyphs 0..i. */
  method DrawFrame(s: Session, glyphs: seq<Glyph>, canvasW: real, canvasH: real, scroll: real, i: nat)
    requires i < |glyphs| && scroll == Scroll(glyphs, canvasH, i)
    modifies s
    ensures s.events == old(s.events) + FramePaint(glyphs, canvasW, canvasH, i) && s.state == old(s.state)
  {
    s.Emit(FillRect("#ffffff", Rect(0.0, 0.0, canvasW, canvasH)));
    s.Emit(Save);
    s.Emit(Translate(0.0, -scroll));
    ghost var head := s.events;
    for j := 0 to i + 1
      invariant s.events == head + GlyphEvents(Ink, glyphs[..j]) && s.state == old(s.state)
    {
      var g := glyphs[j];
      s.Emit(FillText(Ink, g.ch, g.x, g.y));
      assert glyphs[..j + 1][..j] == glyphs[..j];
    }
    var g := glyphs[i];
    s.Emit(DrawHand(Rect(g.x, g.y - HandLift, HandSize, HandSize)));
    s.Emit(Restore);
    ghost var opening := [FillRect("#ffffff", Rect(0.0, 0.0, canvasW, canvasH)), Save, Translate(0.0, -scroll)];
    assert head == old(s.events) + opening;
    ghost var closing := [DrawHand(Rect(g.x, g.y - HandLift, HandSize, HandSize)), Restore];
    assert s.events == head + GlyphEvents(Ink, glyphs[..i + 1]) + closing;
    AppendAssoc(old(s.events), opening, GlyphEvents(Ink, glyphs[..i + 1]));
    AppendAssoc(old(s.events), opening + GlyphEvents(Ink, glyphs[..i + 1]), closing);
  }

  /** One pass of the frame loop (lines 57-89): paint, scroll, wait, report. */
  method Frame(s: Session, glyphs: seq<Glyph>, canvasW: real, canvasH: real, fps: real, scroll: real, i: nat)
    returns (next: real)
    requires i < |glyphs| && fps > 0.0 && scroll == Scroll(glyphs, canvasH, i)
    modifies s
    ensures next == Scroll(glyphs, canvasH, i + 1)
    ensures s.events == old(s.events) + FrameEvents(glyphs, canvasW, canvasH, fps, i) && s.state == old(s.state)
  {
    DrawFrame(s, glyphs, canvasW, canvasH, scroll, i);
    next := scroll;
    var g := glyphs[i];
    if g.y - scroll > canvasH - LineHeight * 2.0 {
      next := scroll + LineHeight;
    }
    s.Emit(Wait(1000.0 / fps));
    s.Emit(FrameDone(i + 1, |glyphs|));
    AppendAssoc(old(s.events), FramePaint(glyphs, canvasW, canvasH, i), [Wait(1000.0 / fps), FrameDone(i + 1, |glyphs|)]);
  }

  /** `generateVideoText` of GenerateVideoText.ts. */
  method GenerateVideoText(text: string, widths: seq<real>, fps: real, canvasW: real, canvasH: real) returns (s: Session)
    requires |widths| == |text| && fps > 0.0
    ensures fresh(s)
    ensures s.events == TextVideoRun(text, widths, fps, canvasW, canvasH) && s.state == Stopped
  {
    s := new Session();
    s.Emit(FillRect("#ffffff", Rect(0.0, 0.0, canvasW, canvasH)));
    var positions := LayoutChars(text, widths, canvasW);
    s.Start();
    ghost var opening := s.events;
    ghost var frames := Frames(positions, canvasW, canvasH, fps, |positions|);
    DrawFrames(s, positions, canvasW, canvasH, fps);
    s.Emit(Wait(2000.0 / fps));
    s.Stop();
    assert s.events == opening + frames + [Wait(2000.0 / fps)] + [RecorderStop];
    AppendAssoc(opening + frames, [Wait(2000.0 / fps)], [RecorderStop]);
  }

  /** The frame loop (lines 57-89): one frame per glyph, the scroll offset carried along. */
  method DrawFrames(s: Session, positions: seq<Glyph>, canvasW: real, canvasH: real, fps: real)
    requires fps > 0.0
    modifies s
    ensures s.events == old(s.events) + Frames(positions, canvasW, canvasH, fps, |positions|) && s.state == old(s.state)
  {
    var scroll := 0.0;
    for i := 0 to |positions|
      invariant scroll == Scroll(positions, canvasH, i)
      invariant s.events == old(s.events) + Frames(positions, canvasW, canvasH, fps, i) && s.state == old(s.state)
    {
      scroll := Frame(s, positions, canvasW, canvasH, fps, scroll, i);
      AppendAssoc(old(s.events), Frames(positions, canvasW, canvasH, fps, i), FrameEvents(positions, canvasW, canvasH, fps, i));
    }
  }

  // ---------------------------------------------------------------------------------------
  // Properties

  /** The glyph repaint draws each glyph once, in order. */
  lemma {:induction false} GlyphEventsShape(color: string, glyphs: seq<Glyph>)
    ensures forall j :: 0 <= j < |glyphs| ==>
      GlyphEvents(color, glyphs)[j] == FillText(color, glyphs[j].ch, glyphs[j].x, glyphs[j].y)
  {
    if |glyphs| > 0 {
      GlyphEventsShape(color, glyphs[..|glyphs| - 1]);
    }
  }

  /**
   * Frame i is, event for event: clear, save, shift up by the scroll offset, glyphs 0..i in order,
   * the 64 x 64 hand 45 pixels above glyph i, restore.
   */
  lemma FrameRepaintsPrefix(glyphs: seq<Glyph>, canvasW: real, canvasH: real, i: nat)
    requires i < |glyphs|
    ensures var f := FramePaint(glyphs, canvasW, canvasH, i);
      |f| == i + 6 && f[0] == FillRect("#ffffff", Rect(0.0, 0.0, canvasW, canvasH)) && f[1] == Save &&
      f[2] == Translate(0.0, -Scroll(glyphs, canvasH, i)) &&
      f[i + 4] == DrawHand(Rect(glyphs[i].x, glyphs[i].y - 45.0, 64.0, 64.0)) && f[i + 5] == Restore
    ensures forall j :: 0 <= j <= i ==>
      FramePaint(glyphs, canvasW, canvasH, i)[3 + j] == FillText(Ink, glyphs[j].ch, glyphs[j].x, glyphs[j].y)
  {
    var g := GlyphEvents(Ink, glyphs[..i + 1]);
    GlyphEventsShape(Ink, glyphs[..i + 1]);
    var a := [FillRect("#ffffff", Rect(0.0, 0.0, canvasW, canvasH)), Save, Translate(0.0, -Scroll(glyphs, canvasH, i))];
    var b := [DrawHand(Rect(glyphs[i].x, glyphs[i].y - HandLift, HandSize, HandSize)), Restore];
    var f := FramePaint(glyphs, canvasW, canvasH, i);
    assert f == a + g + b;
    forall j | 0 <= j <= i
      ensures f[3 + j] == FillText(Ink, glyphs[j].ch, glyphs[j].x, glyphs[j].y)
    {
      assert f[3 + j] == g[j];
      assert glyphs[..i + 1][j] == glyphs[j];
    }
  }

  /**
   * The scroll offset starts at 0, grows by one line height exactly when the glyph of the frame
   * sits below `canvasHeight - 2 * lineHeight`, and otherwise stays; so it never exceeds k lines.
   */
  lemma {:induction false} ScrollSteps(glyphs: seq<Glyph>, canvasH: real, k: nat)
    requires k < |glyphs|
    ensures Scroll(glyphs, canvasH, 0) == 0.0
    ensures 0.0 <= Scroll(glyphs, canvasH, k) <= LineHeight * k as real
    ensures Scroll(glyphs, canvasH, k + 1) > Scroll(glyphs, canvasH, k) <==>
      glyphs[k].y - Scroll(glyphs, canvasH, k) > canvasH - LineHeight * 2.0
    ensures Scroll(glyphs, canvasH, k + 1) == Scroll(glyphs, canvasH, k) ||
      Scroll(glyphs, canvasH, k + 1) == Scroll(glyphs, canvasH, k) + LineHeight
  {
    if k > 0 {
      ScrollSteps(glyphs, canvasH, k - 1);
    }
  }

  /** The scroll offset never decreases. */
  lemma {:induction false} ScrollMonotone(glyphs: seq<Glyph>, canvasH: real, j: nat, k: nat)
    requires j <= k <= |glyphs|
    ensures Scroll(glyphs, canvasH, j) <= Scroll(glyphs, canvasH, k)
    decreases k - j
  {
    if j < k {
      ScrollMonotone(glyphs, canvasH, j, k - 1);
      ScrollSteps(glyphs, canvasH, k - 1);
    }
  }

  predicate IsReport(e: Event) {
    e.FrameDone?
  }

  /** Painting a frame reports nothing. */
  lemma PaintReportsNothing(glyphs: seq<Glyph>, canvasW: real, canvasH: real, i: nat)
    requires i < |glyphs|
    ensures Filter(FramePaint(glyphs, canvasW, canvasH, i), IsReport) == []
  {
    var paint := FramePaint(glyphs, canvasW, canvasH, i);
    FrameRepaintsPrefix(glyphs, canvasW, canvasH, i);
    forall m | 0 <= m < |paint|
      ensures !IsReport(paint[m])
    {
      if 3 <= m < i + 4 {
        var j := m - 3;
        assert paint[3 + j] == FillText(Ink, glyphs[j].ch, glyphs[j].x, glyphs[j].y);
      }
    }
    FilterDropsAll(paint, IsReport);
  }

  /** Parts that report nothing add nothing to the reports. */
  lemma ReportsOfTail(a: seq<Event>, b: seq<Event>, c: seq<Event>)
    requires Filter(a, IsReport) == [] && Filter(b, IsReport) == []
    ensures Filter(a + b + c, IsReport) == Filter(c, IsReport)
  {
    FilterAppend(a, b, IsReport);
    FilterAppend(a + b, c, IsReport);
  }

  /** Frame i reports (i + 1, n) once. */
  lemma FrameReport(glyphs: seq<Glyph>, canvasW: real, canvasH: real, fps: real, i: nat)
    requires i < |glyphs| && fps > 0.0
    ensures Filter(FrameEvents(glyphs, canvasW, canvasH, fps, i), IsReport) == [FrameDone(i + 1, |glyphs|)]
  {
    var paint := FramePaint(glyphs, canvasW, canvasH, i);
    PaintReportsNothing(glyphs, canvasW, canvasH, i);
    var tail := [Wait(1000.0 / fps), FrameDone(i + 1, |glyphs|)];
    assert Filter(tail, IsReport) == [FrameDone(i + 1, |glyphs|)] by {
      assert tail[1..][1..] == [];
    }
    FilterAppend(paint, tail, IsReport);
  }

  /** The first k frames report (1, n), (2, n), ..., (k, n) and nothing else. */
  lemma {:induction false} FramesReport(glyphs: seq<Glyph>, canvasW: real, canvasH: real, fps: real, k: nat)
    requires k <= |glyphs| && fps > 0.0
    ensures ReportsFrames(Frames(glyphs, canvasW, canvasH, fps, k), k, |glyphs|)
  {
    if k > 0 {
      var prev := Frames(glyphs, canvasW, canvasH, fps, k - 1);
      var frame := FrameEvents(glyphs, canvasW, canvasH, fps, k - 1);
      FramesReport(glyphs, canvasW, canvasH, fps, k - 1);
      FrameReport(glyphs, canvasW, canvasH, fps, k - 1);
      ReportsSnoc(prev, frame, k, |glyphs|);
    }
  }

  /** The reports in a log are exactly "frame 1 of n" .. "frame k of n", in order. */
  predicate ReportsFrames(events: seq<Event>, k: nat, n: nat) {
    var r := Filter(events, IsReport);
    |r| == k && forall j :: 0 <= j < k ==> r[j] == FrameDone(j + 1, n)
  }

  /** Reports 1..k-1 followed by a part that reports k alone make reports 1..k. */
  lemma ReportsSnoc(prev: seq<Event>, frame: seq<Event>, k: nat, n: nat)
    requires k > 0 && ReportsFrames(prev, k - 1, n)
    requires Filter(frame, IsReport) == [FrameDone(k, n)]
    ensures ReportsFrames(prev + frame, k, n)
  {
    var before := Filter(prev, IsReport);
    var r := Filter(prev + frame, IsReport);
    assert r == before + [FrameDone(k, n)] by {
      FilterAppend(prev, frame, IsReport);
    }
    forall j | 0 <= j < k
      ensures r[j] == FrameDone(j + 1, n)
    {
      if j < k - 1 {
        assert r[j] == before[j];
      }
    }
  }

  /**
   * The run clears the canvas, starts the recorder after the layout and before the first frame,
   * reports (1, n) .. (n, n) for the n characters, and stops after a final wait of 2000 / fps.
   */
  lemma RunShape(text: string, widths: seq<real>, fps: real, canvasW: real, canvasH: real)
    requires |widths| == |text| && fps > 0.0
    ensures var r := TextVideoRun(text, widths, fps, canvasW, canvasH);
      |r| >= 4 && r[1] == RecorderStart && r[|r| - 2..] == [Wait(2000.0 / fps), RecorderStop]
    ensures ReportsFrames(TextVideoRun(text, widths, fps, canvasW, canvasH), |text|, |text|)
  {
    var glyphs := Layout(text, widths, canvasW, Pen(Margin, LineHeight), |text|);
    var head := [FillRect("#ffffff", Rect(0.0, 0.0, canvasW, canvasH)), RecorderStart];
    var frames := Frames(glyphs, canvasW, canvasH, fps, |glyphs|);
    var tail := [Wait(2000.0 / fps), RecorderStop];
    assert TextVideoRun(text, widths, fps, canvasW, canvasH) == head + frames + tail;
    assert Filter(head + frames + tail, IsReport) == Filter(frames, IsReport) by {
      FilterDropsAll(head, IsReport);
      FilterDropsAll(tail, IsReport);
      FilterAppend(head, frames, IsReport);
      FilterAppend(head + frames, tail, IsReport);
    }
    FramesReport(glyphs, canvasW, canvasH, fps, |glyphs|);
  }
}
