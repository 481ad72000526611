/**
 * The greedy line layout the text generators (src/shared/utils/GenerateVideoText.ts and .tsx)
 * and the text preview (src/components/DrawingCanvas.tsx) share: characters are set left to
 * right from a start pen; a character that would cross `canvasWidth - margin` first moves the
 * pen to the margin of the next line. Character widths are an input: `widths[i]` is what
 * `measureText` answers for character i.
 */
module TextLayout {
  const LineHeight: real := 32.0
  const Margin: real := 20.0

  /** The pen position (`x`, `y`) of the layout loops. */
  datatype Pen = Pen(x: real, y: real)

  /** `{ char, x, y }`: one character placed at a position. */
  datatype Glyph = Glyph(ch: char, x: real, y: real)

  /** Before a character of width w: start a new line when it would cross `canvasWidth - margin`. */
  function Wrap(pen: Pen, w: real, canvasW: real): Pen {
    if pen.x + w > canvasW - Margin then Pen(Margin, pen.y + LineHeight) else pen
  }

  /** The pen before the wrap check of character k. */
  function PenBefore(widths: seq<real>, canvasW: real, start: Pen, k: nat): Pen
    requires k <= |widths|
    decreases k, 0
  {
    if k == 0 then start
    else
      var at := PlaceAt(widths, canvasW, start, k - 1);
      Pen(at.x + widths[k - 1], at.y)
  }

  /** Where character k is placed. */
  function PlaceAt(widths: seq<real>, canvasW: real, start: Pen, k: nat): Pen
    requires k < |widths|
    decreases k, 1
  {
    Wrap(PenBefore(widths, canvasW, start, k), widths[k], canvasW)
  }

  /** The glyphs of the first k characters. */
  function Layout(text: string, widths: seq<real>, canvasW: real, start: Pen, k: nat): (glyphs: seq<Glyph>)
    requires |widths| == |text| && k <= |text|
    ensures |glyphs| == k
  {
    if k == 0 then []
    else
      var at := PlaceAt(widths, canvasW, start, k - 1);
      Layout(text, widths, canvasW, start, k - 1) + [Glyph(text[k - 1], at.x, at.y)]
  }

  /** Widths a font can answer: none is negative. */
  predicate WidthsOk(widths: seq<real>) {
    forall i :: 0 <= i < |widths| ==> widths[i] >= 0.0
  }

  /**
   * The layout loop of GenerateVideoText (lines 39-53 of either file): `x = margin, y = lineHeight`,
   * then per character wrap, push `{ char, x, y }`, advance by the width.
   */
  method LayoutChars(text: string, widths: seq<real>, canvasW: real) returns (positions: seq<Glyph>)
    requires |widths| == |text|
    ensures positions == Layout(text, widths, canvasW, Pen(Margin, LineHeight), |text|)
  {
    var x, y := Margin, LineHeight;
    positions := [];
    for i := 0 to |text|
      invariant Pen(x, y) == PenBefore(widths, canvasW, Pen(Margin, LineHeight), i)
      invariant positions == Layout(text, widths, canvasW, Pen(Margin, LineHeight), i)
    {
      var width := widths[i];
      if x + width > canvasW - Margin {
        x := Margin;
        y := y + LineHeight;
      }
      positions := positions + [Glyph(text[i], x, y)];
      x := x + width;
    }
  }

  // ---------------------------------------------------------------------------------------
  // Properties

  /** The layout holds one glyph per character, in order, each at its placement. */
  lemma {:induction false} LayoutShape(text: string, widths: seq<real>, canvasW: real, start: Pen, k: nat)
    requires |widths| == |text| && k <= |text|
    ensures |Layout(text, widths, canvasW, start, k)| == k
    ensures forall i :: 0 <= i < k ==>
      Layout(text, widths, canvasW, start, k)[i] ==
        Glyph(text[i], PlaceAt(widths, canvasW, start, i).x, PlaceAt(widths, canvasW, start, i).y)
  {
    if k > 0 {
      LayoutShape(text, widths, canvasW, start, k - 1);
    }
  }

  /** A shorter layout is a prefix of a longer one. */
  lemma {:induction false} LayoutPrefix(text: string, widths: seq<real>, canvasW: real, start: Pen, j: nat, k: nat)
    requires |widths| == |text| && j <= k <= |text|
    ensures Layout(text, widths, canvasW, start, k)[..j] == Layout(text, widths, canvasW, start, j)
  {
    LayoutShape(text, widths, canvasW, start, k);
    LayoutShape(text, widths, canvasW, start, j);
  }

  /**
   * A character starts a new line (at the margin, one line lower) exactly when it would cross
   * `canvasWidth - margin`; otherwise it sits where the pen is.
   */
  lemma WrapRule(widths: seq<real>, canvasW: real, start: Pen, k: nat)
    requires k < |widths|
    ensures var before := PenBefore(widths, canvasW, start, k);
      PlaceAt(widths, canvasW, start, k).y > before.y <==> before.x + widths[k] > canvasW - Margin
    ensures var before := PenBefore(widths, canvasW, start, k);
      PlaceAt(widths, canvasW, start, k).y > before.y ==>
        PlaceAt(widths, canvasW, start, k) == Pen(Margin, before.y + LineHeight)
    ensures var before := PenBefore(widths, canvasW, start, k);
      PlaceAt(widths, canvasW, start, k).y <= before.y ==> PlaceAt(widths, canvasW, start, k) == before
  {
  }

  /**
   * With non-negative widths and a start at or right of the margin, every character is placed at
   * or right of the margin, and one no wider than `canvasWidth - 2 * margin` ends at or before
   * `canvasWidth - margin`.
   */
  lemma {:induction false} PlacedWithinMargins(widths: seq<real>, canvasW: real, start: Pen, k: nat)
    requires WidthsOk(widths) && start.x >= Margin && k < |widths|
    ensures PlaceAt(widths, canvasW, start, k).x >= Margin
    ensures widths[k] <= canvasW - 2.0 * Margin ==>
      PlaceAt(widths, canvasW, start, k).x + widths[k] <= canvasW - Margin
  {
    if k > 0 {
      PlacedWithinMargins(widths, canvasW, start, k - 1);
    }
  }

  /**
   * Lines only go down, one line height at a time: character k sits on the line of character
   * k - 1 or on the next one, and on line n of the start for some n <= k + 1.
   */
  lemma {:induction false} LinesGoDown(widths: seq<real>, canvasW: real, start: Pen, k: nat)
    requires k < |widths|
    ensures var y := PlaceAt(widths, canvasW, start, k).y;
      y == start.y + LineHeight * LinesBefore(widths, canvasW, start, k + 1) as real
    ensures LinesBefore(widths, canvasW, start, k + 1) <= k + 1
    ensures k > 0 ==>
      var prev := PlaceAt(widths, canvasW, start, k - 1).y;
      var y := PlaceAt(widths, canvasW, start, k).y;
      y == prev || y == prev + LineHeight
  {
    if k > 0 {
      LinesGoDown(widths, canvasW, start, k - 1);
    }
  }

  /** How many of the first k characters started a new line. */
  function LinesBefore(widths: seq<real>, canvasW: real, start: Pen, k: nat): nat
    requires k <= |widths|
  {
    if k == 0 then 0
    else
      var before := PenBefore(widths, canvasW, start, k - 1);
      LinesBefore(widths, canvasW, start, k - 1) + (if before.x + widths[k - 1] > canvasW - Margin then 1 else 0)
  }

  /** The y of a later character is never above that of an earlier one. */
  lemma {:induction false} LinesMonotone(widths: seq<real>, canvasW: real, start: Pen, j: nat, k: nat)
    requires j <= k < |widths|
    ensures PlaceAt(widths, canvasW, start, j).y <= PlaceAt(widths, canvasW, start, k).y
    decreases k - j
  {
    if j < k {
      LinesMonotone(widths, canvasW, start, j, k - 1);
      LinesGoDown(widths, canvasW, start, k);
    }
  }
}
