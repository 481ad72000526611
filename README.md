# Drawing-video generator: a verified model of its core

The application turns a BMP picture or a piece of text into a short "drawing" video. An image is
fitted into the frame, cut into a rows x cols grid of blocks with ids `r-c`, and revealed block by
block: blocks the user selected come first, in the order they were clicked, then the rest in raster
order. Each block is revealed by a sweep in one of four directions, top-bottom, bottom-top,
left-right or right-left, with a progress report and a frame wait per step. Text is either
revealed one character per frame, with a hand image following the pen and the canvas scrolling up
as lines fill, or, in the older generator, typed onto the frame with a simple pen. Around the
generators sit the home page, the preview canvas with its clickable block grid, the grid-size
settings and the start button.

The model is written in Dafny. Each generator run is a `Capture.Session`: an object whose `events`
field is the log of everything the run does to the world, in order:
- canvas draws (`fillRect`, `drawImage`, `fillText`, `save`/`translate`/`restore`);
- progress callbacks (the value the optional `onProgress` callback would receive);
- timer waits;
- `MediaRecorder` start and stop.

Its `state` field is the recorder's lifecycle: idle, recording, stopped. Every generator is an
imperative method over such a session. Each method is proved to leave exactly the log a
specification function describes. The properties of the generators are then proved as lemmas
about those functions. The React pages are value types plus one function per handler. A class
holds the same state in fields, and each of its methods is proved to move the fields as the
handler's function says.

Modules:
- `Results`: `Option` and `Result` wrappers.
- `JsBuiltins`: the JavaScript built-ins the core leans on: `trim() === ''`, `endsWith`, `split`,
  `${n}`, `Number` on digit strings, `indexOf` and `filter`.
- `BlockIds`: block ids `r-c`, their parsing, and the row-major list of all of them.
- `Geometry`: rectangles, the aspect-preserving centred fit, and grid cells.
- `Capture`: the session (canvas log plus recorder) and the browser's answers as parameters.
- `RevealPlan`: the order of the blocks in each of the two block renderers.
- `BmpVideo`: `src/shared/utils/generateVideoBMP.tsx`.
- `LegacyGenerator`: `src/features/generator.tsx`, the older renderer with a text mode.
- `TextLayout`: the greedy line wrap shared by the text generators and the text preview.
- `TextVideo`: `src/shared/utils/GenerateVideoText.ts`.
- `PacedTextVideo`: `src/shared/utils/GenerateVideoText.tsx`, the variant with pauses after sentences.
- `Selection`: the toggle-on-click selection list and the numbers shown on selected blocks.
- `HomePage`: `src/features/index.tsx`.
- `DrawingCanvas`: `src/components/DrawingCanvas.tsx`.
- `DrawingSettings`: `src/components/DrawingSettings.tsx`.
- `GenerateButton`: `src/components/GenerateButton.tsx`.

Which generators the application reaches: the home page (`index.tsx`) calls
`generateVideoBMP.tsx`; `GenerateButton.tsx` calls it and `generateVideoText` imported from
`GenerateVideoText`, which the default extension order resolves to the `.ts` file. Nothing in the
application imports `GenerateVideoText.tsx` or `src/features/generator.tsx`; both are modelled
because they are part of the core, but neither runs in the application as it stands.

Geometry is exact `real` arithmetic. Character widths, which the browser measures, are an input.

## Model

| member | source | states |
|---|---|---|
| JsBuiltins.NatToString | src/shared/utils/generateVideoBMP.tsx:89 | `${n}` of a natural number is a non-empty string of decimal digits that starts with '0' only for 0 |
| JsBuiltins.DigitsValueOfNatToString | src/shared/utils/generateVideoBMP.tsx:98 | `Number` applied to the decimal form of n gives back n |
| JsBuiltins.Split | src/shared/utils/generateVideoBMP.tsx:98 | `split` always yields at least one part, and a string without the separator yields itself alone |
| JsBuiltins.SplitJoin | src/shared/utils/generateVideoBMP.tsx:98 | splitting `a + sep + b`, where neither part holds the separator, gives back exactly `[a, b]` |
| JsBuiltins.IndexOf | src/shared/utils/generateVideoBMP.tsx:130 | `indexOf` is -1 exactly when the value is absent, and otherwise the position of its first occurrence |
| JsBuiltins.Filter | src/shared/utils/generateVideoBMP.tsx:90-92 | a filter is never longer than its input and holds exactly the members that pass the test |
| JsBuiltins.FilterPartition | src/shared/utils/generateVideoBMP.tsx:91-92 | what a filter keeps and what the opposite filter keeps are, together, the input as a multiset |
| BlockIds.ParseBlockIdRoundTrip | src/shared/utils/generateVideoBMP.tsx:98 | `split('-').map(Number)` of the id of block (r, c) recovers (r, c) |
| BlockIds.BlockIdInjective | src/shared/utils/generateVideoBMP.tsx:89 | two different blocks never share an id |
| BlockIds.AllBlocksRowMajor | src/shared/utils/generateVideoBMP.tsx:89 | the id list has rows * cols entries and block (r, c) sits at index r * cols + c |
| BlockIds.AllBlocksParse | src/shared/utils/generateVideoBMP.tsx:89 | entry i of the list parses to row i / cols, column i % cols, a cell inside the grid |
| BlockIds.CanonicalIdListed | src/shared/utils/generateVideoBMP.tsx:89 | every cell of the grid has its id in the list |
| BlockIds.ListedIdCanonical | src/shared/utils/generateVideoBMP.tsx:89 | every listed id parses to a cell of the grid and is that cell's id |
| BlockIds.AllBlocksMembership | src/shared/utils/generateVideoBMP.tsx:89 | an id is listed if and only if it is the id of a cell inside the grid |
| BlockIds.AllBlocksDistinct | src/shared/utils/generateVideoBMP.tsx:89 | no id occurs twice in the list |
| BlockIds.BuildAllBlocks | src/features/generator.tsx:145-150 | the nested push loops build the same row-major list as the `Array.from` form |
| Geometry.Ceil | src/shared/utils/generateVideoBMP.tsx:111-115 | `Math.ceil(x)` is the integer n with x <= n < x + 1 |
| Geometry.FitImage | src/shared/utils/generateVideoBMP.tsx:68-76 | the fitted box fits the frame, keeps the image's aspect ratio, fills the frame's width or height, and is centred with non-negative offsets |
| Geometry.CellRectInside | src/shared/utils/generateVideoBMP.tsx:101-104 | the cell of any block of the grid lies inside the box |
| Geometry.CellRectsDisjoint | src/shared/utils/generateVideoBMP.tsx:101-104 | the cells of two different blocks do not overlap |
| Geometry.CellRectsTile | src/shared/utils/generateVideoBMP.tsx:101-104 | the cells leave no gap: the outer cells touch the box's edges and each cell ends where its neighbour starts |
| Capture.Session.constructor | src/shared/utils/generateVideoBMP.tsx:41-47 | a new session has recorded nothing and its recorder is idle |
| Capture.Session.Emit | src/shared/utils/generateVideoBMP.tsx:130-131 | a draw, a progress report or a wait is appended to the log and leaves the recorder alone |
| Capture.Session.Start | src/shared/utils/generateVideoBMP.tsx:49-52 | starting a recorder that is not recording makes it record and logs the start |
| Capture.Session.Stop | src/shared/utils/generateVideoBMP.tsx:141 | stopping a recording recorder stops it and logs the stop; a recorder that is not recording ignores the call |
| RevealPlan.BmpChosenDropsUnknown | src/shared/utils/generateVideoBMP.tsx:90 | the chosen blocks are exactly the selected ids that are blocks of the grid; a selection of grid blocks is kept as given, order included |
| RevealPlan.BmpEmptySelection | src/shared/utils/generateVideoBMP.tsx:90-92 | with nothing selected every block is chosen, in raster order, and none is left over |
| RevealPlan.BmpPlanIsPermutation | src/shared/utils/generateVideoBMP.tsx:90-92 | for a selection without repeats the plan has no repeats and is a permutation of all blocks |
| RevealPlan.LegacyEmptySelectionSweepsTwice | src/features/generator.tsx:153-155 | with nothing selected the older plan is the whole grid twice, so every block is swept exactly twice |
| RevealPlan.LegacyKeepsSelection | src/features/generator.tsx:153-155 | a non-empty selection is swept first exactly as given, ids outside the grid included |
| RevealPlan.BlankGridPlan | src/shared/utils/generateVideoBMP.tsx:89-92 | with 0 rows or columns there are no blocks, the newer plan is empty whatever is selected, and the older plan (src/features/generator.tsx:145-155) is the selection as given |
| RevealPlan.LegacyPlanAgainstBmpPlan | src/features/generator.tsx:153-155 | the two plans agree on a non-empty selection of grid blocks; on an empty selection the older plan is the newer one twice |
| BmpVideo.MakeSetup | src/shared/utils/generateVideoBMP.tsx:68-92 | the setup has a positive grid and block size, blocks `img.width / cols` by `img.height / rows + 1`, and the chosen list of the selection |
| BmpVideo.MaxLine | src/shared/utils/generateVideoBMP.tsx:111-115 | the sweep length is at least one |
| BmpVideo.DrawBlock | src/shared/utils/generateVideoBMP.tsx:94-134 | `drawBlock` appends exactly the block's paint (the maxLine + 1 sweep steps and the closing full copy, or the copy alone) and leaves the recorder alone |
| BmpVideo.StepOnce | src/shared/utils/generateVideoBMP.tsx:117-132 | one pass of the sweep loop appends the partial copy, the progress report and the frame wait of step i |
| BmpVideo.SweepStep | src/shared/utils/generateVideoBMP.tsx:120-128 | the direction branches compute the partial copy of step i |
| BmpVideo.FullCopy | src/shared/utils/generateVideoBMP.tsx:133 | the closing copy paints the whole block into its whole cell, and nothing for an id that names no cell |
| BmpVideo.DrawBlocks | src/shared/utils/generateVideoBMP.tsx:136 | a `for ... of` loop over ids appends the blocks' paints in order |
| BmpVideo.SweepPlan | src/shared/utils/generateVideoBMP.tsx:136-137 | the two loops together sweep the plan: chosen blocks, then the others |
| BmpVideo.RecordPlan | src/shared/utils/generateVideoBMP.tsx:136-141 | a recording session gets the sweeps, a one-second wait and the stop, and ends stopped |
| BmpVideo.GenerateVideoBmp | src/shared/utils/generateVideoBMP.tsx:28-143 | the generator leaves the log, recorder state and result of the reference run, error paths and an empty grid included |
| BmpVideo.PlanEventsSplit | src/shared/utils/generateVideoBMP.tsx:136-137 | sweeping the plan is sweeping the chosen blocks, then the others |
| BmpVideo.PlanEventsAppend | src/shared/utils/generateVideoBMP.tsx:136-137 | sweeping two lists one after the other is sweeping their concatenation |
| BmpVideo.PlanInGrid | src/shared/utils/generateVideoBMP.tsx:89-92 | every block of the plan parses to a cell inside the grid |
| BmpVideo.SweepShape | src/shared/utils/generateVideoBMP.tsx:117-132 | k sweep steps are k triples: partial copy i, progress of step i, one frame wait |
| BmpVideo.SweepWithoutCell | src/shared/utils/generateVideoBMP.tsx:98-131 | for an id that names no cell the k steps are k pairs of progress report and wait |
| BmpVideo.BlockShape | src/shared/utils/generateVideoBMP.tsx:111-133 | an animated block takes ceil(extent) + 1 steps and ends with the full copy of the block into its cell |
| BmpVideo.UnknownBlockDrawsNothing | src/shared/utils/generateVideoBMP.tsx:98-133 | a block whose id names no cell draws nothing but still reports and waits maxLine + 1 times |
| BmpVideo.SourceRowsShifted | src/shared/utils/generateVideoBMP.tsx:85-100 | block row r is read r pixels below the r-th band of the image, and the last row's window ends rows pixels below the image |
| BmpVideo.FullDrawsTile | src/shared/utils/generateVideoBMP.tsx:101-104 | the final copies of the blocks lie inside the fitted box and never overlap |
| BmpVideo.ForwardSweepCoversCell | src/shared/utils/generateVideoBMP.tsx:118-125 | top-bottom and left-right steps keep the cell's corner; step maxLine - 1 covers exactly the cell, and step maxLine reaches past it |
| BmpVideo.ReverseSweepStartsOutside | src/shared/utils/generateVideoBMP.tsx:122-127 | the first bottom-top step is painted at the cell's bottom edge, and the first right-left step at its right edge |
| BmpVideo.ProgressWithinBlock | src/shared/utils/generateVideoBMP.tsx:118-130 | within a block the reported progress strictly rises step by step |
| BmpVideo.ProgressOvershoots | src/shared/utils/generateVideoBMP.tsx:117-130 | when every block is chosen, the last step of the last block reports more than 100 percent |
| BmpVideo.ProgressOfNotChosen | src/shared/utils/generateVideoBMP.tsx:130 | a block that is not chosen reports negative progress before its last two steps |
| BmpVideo.RecorderLifecycle | src/shared/utils/generateVideoBMP.tsx:28-141 | no type or context: nothing recorded; no file: stop, then throw; failed decode or offscreen context: throws while still recording; success if and only if every check passes, ending with a wait and a stop |
| BmpVideo.RunSweepsPlan | src/shared/utils/generateVideoBMP.tsx:85-141 | a successful run is background, start, the plan's sweeps, wait, stop; the plan is made of grid blocks, a permutation of all of them for a selection without repeats, raster order for none; with 0 rows or columns the plan is empty and the video is background, start, wait, stop |
| LegacyGenerator.DrawText | src/features/generator.tsx:84-102 | the character loop appends each character at the pen, its progress and a wait, the pen following the wrap rule |
| LegacyGenerator.PenBounds | src/features/generator.tsx:85-98 | the pen's x is 50 or at most width - 100, and its y is 50 plus a whole number of 60-pixel lines, never going back up |
| LegacyGenerator.TextStaysInFrame | src/features/generator.tsx:89-100 | on a frame at least 150 wide, glyphs at most 100 wide stay inside it horizontally (their line, 60 px per wrap, is not bounded), and the last character reports exactly 100 percent |
| LegacyGenerator.TextInkOnly | src/features/generator.tsx:51-102 | the character loop logs only glyphs filled in '#fff', progress reports and waits |
| LegacyGenerator.TextInvisibleOnDefaultBackground | src/features/generator.tsx:27-102 | with the default background '#fff' a successful text run paints the background first and then only glyphs in that same colour: no other fill and no image |
| LegacyGenerator.TextShape | src/features/generator.tsx:89-102 | k characters give k triples of glyph, progress and wait, in order |
| LegacyGenerator.TextProgressRises | src/features/generator.tsx:100 | text progress strictly rises from character to character |
| LegacyGenerator.MakeSetup | src/features/generator.tsx:119-155 | the blocks divide the image exactly (blockW * cols = width, blockH * rows = height), and the chosen list is the selection or all blocks |
| LegacyGenerator.Repaint | src/features/generator.tsx:195-209 | the repaint loop paints the chosen blocks before the first occurrence of the swept block, or all of them when it is absent |
| LegacyGenerator.RepaintOne | src/features/generator.tsx:197-208 | one repaint copies a whole earlier block into its cell, and nothing for an id that names no cell |
| LegacyGenerator.BlankCell | src/features/generator.tsx:191-192 | each step first blacks out the block's cell |
| LegacyGenerator.ReportStep | src/features/generator.tsx:223-228 | the four progress formulas agree: (index + (k + 1) / extent) / total * 100 at step k, then one wait |
| LegacyGenerator.SweepStep | src/features/generator.tsx:191-228 | one loop pass appends blackout, repaints, partial copy, progress and wait of step k |
| LegacyGenerator.DrawBlock | src/features/generator.tsx:158-365 | `drawBlock` appends exactly the block's sweep (or its single copy when not animated) |
| LegacyGenerator.SweepForward | src/features/generator.tsx:187-229 | the counting-up loop runs ceil(extent) times, each pass a step of the sweep |
| LegacyGenerator.SweepBackward | src/features/generator.tsx:232-274 | the counting-down loop runs floor(extent) times, each pass a step of the sweep |
| LegacyGenerator.DrawBlocks | src/features/generator.tsx:366-368 | the loop over ids appends the blocks' sweeps in order |
| LegacyGenerator.PlanEventsAppend | src/features/generator.tsx:366-374 | sweeping two lists one after the other is sweeping their concatenation |
| LegacyGenerator.SweepPlan | src/features/generator.tsx:366-374 | the chosen blocks are swept, then the others when any are left |
| LegacyGenerator.GenerateVideo | src/features/generator.tsx:16-384 | the generator leaves the log, recorder state and result of the reference run, text and image modes, error paths and an empty grid with no selection included; text mode takes any grid |
| LegacyGenerator.WholeSteps | src/features/generator.tsx:187-321 | a whole-number extent is swept in exactly that many steps, in every direction |
| LegacyGenerator.WholeRects | src/features/generator.tsx:211-355 | a step that has reached the block's far edge copies the whole block into its whole cell |
| LegacyGenerator.WholeExtentEndsWithFullCopy | src/features/generator.tsx:186-355 | with a whole-number extent the last step of every direction copies the whole block into its whole cell |
| LegacyGenerator.FractionalForwardSweepOvershoots | src/features/generator.tsx:187-221 | with a fractional extent the top-bottom and left-right loops run once more than the block has whole lines and read past its edge |
| LegacyGenerator.ReverseSweepKeepsFarEdge | src/features/generator.tsx:255-266 | every bottom-top and right-left step reaches the block's far edge, in the image and in the frame |
| LegacyGenerator.FractionalReverseSweepMissesStrip | src/features/generator.tsx:232-266 | with a fractional extent the reverse loops never copy the strip at the block's top or left edge |
| LegacyGenerator.ThinBlockReverseSweepIsEmpty | src/features/generator.tsx:232 | a block thinner than one pixel along a reverse sweep is never drawn |
| LegacyGenerator.RepaintsEarlierChosen | src/features/generator.tsx:195-209 | while sweeping the j-th of distinct chosen blocks exactly the j before it are repainted; a block not chosen repaints them all |
| LegacyGenerator.RepaintShape | src/features/generator.tsx:195-209 | the repaints are one full copy per id, in order |
| LegacyGenerator.WholeExtentProgress | src/features/generator.tsx:224-225 | with a whole-number extent the last step of the j-th chosen block reports (j + 1) / total |
| LegacyGenerator.WholeExtentEndsAtHundred | src/features/generator.tsx:224-225 | with a whole-number extent and every block chosen once, the run ends at exactly 100 percent |
| LegacyGenerator.FractionalForwardProgressOvershoots | src/features/generator.tsx:187-226 | with a fractional extent a forward sweep of all blocks ends above 100 percent |
| LegacyGenerator.ProgressOfNotChosen | src/features/generator.tsx:224-225 | a block that is not chosen reports negative progress until its last line |
| LegacyGenerator.RecorderLifecycle | src/features/generator.tsx:30-379 | no type or context: nothing recorded; missing text, file or offscreen context: stop, then throw; failed decode: throws while recording; success ends with a wait and a stop |
| LegacyGenerator.RunSweepsPlan | src/features/generator.tsx:145-377 | a successful image run sweeps the legacy plan; with nothing selected the grid is swept twice in raster order; with 0 rows or columns the plan is empty and the video is background, start, wait, stop |
| TextLayout.Layout | src/shared/utils/GenerateVideoText.ts:42-53 | the layout of k characters holds k glyphs |
| TextLayout.LayoutChars | src/shared/utils/GenerateVideoText.ts:39-53 | the layout loop produces the reference layout from (margin, lineHeight) |
| TextLayout.LayoutShape | src/shared/utils/GenerateVideoText.ts:45-53 | glyph i is character i, placed where the wrap rule puts it |
| TextLayout.LayoutPrefix | src/shared/utils/GenerateVideoText.tsx:45-53 | the layout of a prefix is a prefix of the layout |
| TextLayout.WrapRule | src/shared/utils/GenerateVideoText.ts:46-52 | a character starts a new line (margin, one line lower) exactly when it would cross `canvasWidth - margin` |
| TextLayout.PlacedWithinMargins | src/shared/utils/GenerateVideoText.ts:46-52 | every glyph starts at or right of the margin, and one no wider than `canvasWidth - 2 * margin` ends at or before `canvasWidth - margin` |
| TextLayout.LinesGoDown | src/shared/utils/GenerateVideoText.ts:39-51 | a glyph sits on the previous glyph's line or the next, and on line n of the start for some n <= k + 1 |
| TextLayout.LinesMonotone | src/shared/utils/GenerateVideoText.tsx:47-50 | a later glyph is never above an earlier one |
| TextVideo.GlyphEvents | src/shared/utils/GenerateVideoText.ts:69-72 | the repaint holds one `fillText` per glyph |
| TextVideo.GlyphEventsShape | src/shared/utils/GenerateVideoText.ts:69-72 | the repaint draws glyph j, with its own character and position, as its j-th call |
| TextVideo.DrawFrame | src/shared/utils/GenerateVideoText.ts:60-79 | painting frame i appends the frame's paint for the current scroll |
| TextVideo.Frame | src/shared/utils/GenerateVideoText.ts:57-89 | one frame appends paint, wait and report, and carries the scroll offset to that of the next frame |
| TextVideo.DrawFrames | src/shared/utils/GenerateVideoText.ts:57-89 | the frame loop appends every frame in order |
| TextVideo.GenerateVideoText | src/shared/utils/GenerateVideoText.ts:19-94 | the generator leaves the reference run's log and a stopped recorder |
| TextVideo.FrameRepaintsPrefix | src/shared/utils/GenerateVideoText.ts:60-79 | frame i is: clear, save, shift by the scroll, glyphs 0..i in order, the 64 x 64 hand 45 pixels above glyph i, restore |
| TextVideo.ScrollSteps | src/shared/utils/GenerateVideoText.ts:40-84 | the scroll starts at 0, grows by one line exactly when the glyph is low on the canvas, and stays within k lines |
| TextVideo.ScrollMonotone | src/shared/utils/GenerateVideoText.ts:82-84 | the scroll offset never decreases |
| TextVideo.FrameReport | src/shared/utils/GenerateVideoText.ts:88 | frame i reports (i + 1, n) and nothing else |
| TextVideo.FramesReport | src/shared/utils/GenerateVideoText.ts:57-89 | the first k frames report (1, n) .. (k, n) in order and nothing else |
| TextVideo.RunShape | src/shared/utils/GenerateVideoText.ts:55-94 | the run paints the background, starts recording before the first frame, reports (1, n) .. (n, n), and stops after a 2000 / fps wait |
| PacedTextVideo.PacedFrame | src/shared/utils/GenerateVideoText.tsx:59-93 | one frame appends its paint, waits and report, and carries the scroll and the counter to the next frame's |
| PacedTextVideo.DrawPacedFrames | src/shared/utils/GenerateVideoText.tsx:59-93 | the frame loop appends every frame in order |
| PacedTextVideo.GeneratePacedVideoText | src/shared/utils/GenerateVideoText.tsx:19-97 | the generator leaves the reference run's log and a stopped recorder |
| PacedTextVideo.CounterRule | src/shared/utils/GenerateVideoText.tsx:85-90 | the counter rises by one per character and drops to 0 exactly on a hold: a '.' after at least three characters since the last hold; an earlier '.' changes nothing |
| PacedTextVideo.HoldBound | src/shared/utils/GenerateVideoText.tsx:85-90 | at least four characters are painted per hold, so n characters hold at most n / 4 times |
| PacedTextVideo.PacedFrameReport | src/shared/utils/GenerateVideoText.tsx:92 | frame i reports (i + 1, n) and nothing else |
| PacedTextVideo.PacedFrameTail | src/shared/utils/GenerateVideoText.tsx:84-92 | the report of a frame comes after its 1500 / fps wait and, on a hold, after the five-second hold |
| PacedTextVideo.PacedFramesReport | src/shared/utils/GenerateVideoText.tsx:59-93 | the first k frames report (1, n) .. (k, n) in order and nothing else |
| Selection.Toggle | src/components/DrawingCanvas.tsx:70-74 | a click flips the clicked id's membership, leaves every other id's membership alone, and grows the list by at most one |
| Selection.BlockNumber | src/components/DrawingCanvas.tsx:98 | the shown number is 0 exactly for an unselected block, and otherwise the 1-based position of its first occurrence |
| Selection.WithoutAbsent | src/features/index.tsx:34 | removing an absent id changes nothing |
| Selection.WithoutIdempotent | src/features/index.tsx:34 | removing an id twice is removing it once |
| Selection.ToggleKeepsDistinct | src/features/index.tsx:31-39 | a toggle never introduces a duplicate |
| Selection.ToggleKeepsOthersInOrder | src/features/index.tsx:33-36 | the other ids keep their order, and a newly added id goes behind all of them |
| Selection.ToggleTwice | src/features/index.tsx:31-39 | two clicks give back an unselected block's selection, and move a selected block to the end |
| Selection.NumbersArePositions | src/features/index.tsx:152 | in a selection without repeats the block at position i shows i + 1 |
| Selection.NumbersDistinct | src/features/index.tsx:135-152 | two different selected blocks never show the same number |
| Selection.NewBlockNumberedLast | src/features/index.tsx:36 | a newly selected block shows the last number |
| HomePage.Home.constructor | src/features/index.tsx:6-19 | a fresh page has no input, a 1 x 1 grid, no selection, no video and 120 fps |
| HomePage.Home.HandleFileChange | src/features/index.tsx:23-29 | the fields change as the file handler's rule says |
| HomePage.Home.ToggleBlock | src/features/index.tsx:31-39 | the selection field is toggled and nothing else changes |
| HomePage.Home.HandleCancel | src/features/index.tsx:41-50 | the fields change as the cancel rule says |
| HomePage.Home.SetRows | src/features/index.tsx:77-80 | a new rows value is stored and the effect clears the selection |
| HomePage.Home.SetCols | src/features/index.tsx:77-80 | a new cols value is stored and the effect clears the selection |
| HomePage.Home.SetDeepSettings | src/features/index.tsx:82-88 | the checkbox and the ref change as the deep-settings effect says |
| HomePage.Home.HandleStart | src/features/index.tsx:52-75 | the request sent is the page's fields, only with an input type, and the fields end as the start rule says |
| HomePage.FileChangeRule | src/features/index.tsx:23-29 | only a name ending in ".bmp" is taken, and taking it selects the 'bmp' input type |
| HomePage.NoStartWithoutFile | src/features/index.tsx:23-53 | a page where no file was taken ignores Start |
| HomePage.CancelResets | src/features/index.tsx:41-50 | cancel empties the input and the selection, keeps the grid, is idempotent, and leaves Start with nothing to do |
| HomePage.GridChangeClearsSelection | src/features/index.tsx:77-80 | any change of rows or cols clears the selection; the same value keeps it |
| HomePage.DeepSettingsReset | src/features/index.tsx:82-88 | unchecking deep settings resets the grid to 1 x 1; checking it leaves the grid; the ref always ends equal to the box |
| HomePage.StartLifecycle | src/features/index.tsx:52-75 | Start does nothing without an input type; a resolved run shows its URL and clears loading, a thrown run leaves loading set |
| HomePage.ApplyKeepsInv | src/features/index.tsx:23-88 | every user action keeps the selection duplicate-free, the ref in step with the box, and a type exactly with a file |
| HomePage.RunKeepsInv | src/features/index.tsx:23-88 | any sequence of actions keeps that invariant |
| HomePage.ReachableNumbering | src/features/index.tsx:152 | on every reachable page each selected block shows its position in the selection |
| DrawingCanvas.StopIndex | src/components/DrawingCanvas.tsx:45-58 | the loop breaks at the first character placed below the floor, and every earlier one is above it |
| DrawingCanvas.DrawPreviewText | src/components/DrawingCanvas.tsx:35-59 | the text loop draws exactly the shown glyphs |
| DrawingCanvas.RenderPreview | src/components/DrawingCanvas.tsx:24-68 | the effect paints the reference preview for the mode |
| DrawingCanvas.RenderGrid | src/components/DrawingCanvas.tsx:76-105 | the nested loops return the reference grid |
| DrawingCanvas.PreviewDrawsWhatFits | src/components/DrawingCanvas.tsx:54-57 | a character is drawn exactly when its line is not below the floor, at its layout position |
| DrawingCanvas.TextPreviewShape | src/components/DrawingCanvas.tsx:31-59 | text mode paints the canvas white, then the shown characters in order, and no picture |
| DrawingCanvas.ImagePreviewShape | src/components/DrawingCanvas.tsx:61-67 | image mode paints the canvas white, then the loaded picture over all of it |
| DrawingCanvas.GridIds | src/components/DrawingCanvas.tsx:81-85 | the grid holds rows * cols blocks whose ids are the row-major id list |
| DrawingCanvas.GridBlockAt | src/components/DrawingCanvas.tsx:78-98 | block (r, c) sits at left c * 800 / cols and top r * 600 / rows, with size 800 / cols x 600 / rows, and shows its selection number exactly when selected |
| DrawingCanvas.GridEntry | src/components/DrawingCanvas.tsx:81-94 | entry i of the grid is the block of row i / cols, column i % cols |
| DrawingCanvas.GridTiles | src/components/DrawingCanvas.tsx:78-94 | every block lies inside the 800 x 600 canvas and no two overlap |
| DrawingCanvas.GridNumbersDistinct | src/components/DrawingCanvas.tsx:97-98 | two numbered blocks never show the same number |
| DrawingSettings.Clamp | src/components/DrawingSettings.tsx:29 | NaN stays NaN; a number ends in 1..50, unchanged when already inside, 1 below and 50 above |
| DrawingSettings.ClampIdempotent | src/components/DrawingSettings.tsx:29 | clamping twice is clamping once |
| DrawingSettings.ClampMonotone | src/components/DrawingSettings.tsx:29 | a larger number never clamps to a smaller one |
| DrawingSettings.GridChangeCalls | src/components/DrawingSettings.tsx:30-37 | only the changed dimension's setter is called, with the clamped value; the effect follows exactly when given and sees the grid the setter left |
| DrawingSettings.TypedNumberInRange | src/components/DrawingSettings.tsx:28-38 | a typed number leaves the changed dimension in 1..50 and the other untouched |
| GenerateButton.ButtonInputType | src/components/DrawingApp.tsx:51 | the button's input type is 'bmp' exactly for image mode, 'text' for text mode, null for no mode |
| GenerateButton.Button.constructor | src/components/GenerateButton.tsx:28 | a fresh button is not loading and has done nothing |
| GenerateButton.Button.Await | src/components/GenerateButton.tsx:43-66 | the awaited call is logged with its request, followed by `onGenerated(url)` or the failure alert |
| GenerateButton.Button.HandleClick | src/components/GenerateButton.tsx:30-70 | a click logs the handler's effects, and the flag ends false unless the click was refused |
| GenerateButton.RefusedClickOnlyAlerts | src/components/GenerateButton.tsx:31-39 | a missing type or text together with an image only alerts: no flag, no generator |
| GenerateButton.LoadingBracketsTheCall | src/components/GenerateButton.tsx:41-69 | an accepted click sets the flag first and clears it last, success or throw |
| GenerateButton.Dispatch | src/components/GenerateButton.tsx:44-62 | text goes to the text generator on an 800 x 600 canvas, 'bmp' to the BMP generator with the grid, fps, selection and direction |
| GenerateButton.GeneratedOnlyOnSuccess | src/components/GenerateButton.tsx:51-65 | `onGenerated(url)` happens if and only if the generation resolved with url; the failure alert if and only if it threw |
| GenerateButton.EnabledHasInputType | src/components/GenerateButton.tsx:74 | an enabled button is not loading and never meets the missing-type guard |

### Where the code behaves unexpectedly

The model follows the code as written. These properties are proved about it:
- In `generateVideoBMP.tsx` the block height is `img.height / rows + 1`. Source rows are read
  shifted down by one pixel per row, and the last row reads past the image
  (`BmpVideo.SourceRowsShifted`).
- The BMP sweep runs `maxLine + 1` steps. Its last progress report is above 100 percent
  (`BmpVideo.ProgressOvershoots`).
- Blocks that are not chosen have `indexOf` -1, so they report negative progress
  (`BmpVideo.ProgressOfNotChosen`, `LegacyGenerator.ProgressOfNotChosen`).
- A failed image decode, and in `generateVideoBMP.tsx` also a missing offscreen context, throws
  without stopping the recorder (both `RecorderLifecycle` lemmas).
- In `generator.tsx` an empty selection sweeps every block twice
  (`RevealPlan.LegacyEmptySelectionSweepsTwice`).
- In `generator.tsx` selected ids outside the grid are kept (`RevealPlan.LegacyKeepsSelection`).
- In `generator.tsx` a fractional block extent makes the forward loops overshoot the block
  (`LegacyGenerator.FractionalForwardSweepOvershoots`,
  `LegacyGenerator.FractionalForwardProgressOvershoots`). The same extent makes the reverse
  loops skip a strip (`LegacyGenerator.FractionalReverseSweepMissesStrip`).
- Every progress report goes to an optional `onProgress` callback, and neither `index.tsx` nor
  `GenerateButton.tsx` passes one, so in the application no report is delivered.
- In `generator.tsx` text mode fills the characters in `'#fff'` (line 51), which is also the
  default background (line 27), so with the default arguments the video shows nothing but a
  white frame (`LegacyGenerator.TextInvisibleOnDefaultBackground`).
- `handleStart` in `index.tsx` has no `catch`, so a thrown generation leaves the loading screen
  up (`HomePage.StartLifecycle`).

These are recorded here rather than corrected, and the rest of the model uses the behaviour as
written.

## Left out

- Pixels: `drawImage`, `fillRect` and `fillText` are logged as calls with their rectangles and positions, and `fillRect` and `fillText` with their fill colour; what they paint is not modelled.
- DrawingCanvas.RenderPreview: the `clearRect` over the whole canvas (DrawingCanvas.tsx:31) is not logged; the white `fillRect` over the same area follows it at once.
- Font metrics: `measureText` is an input (a width per character, or a width function), as is `font`.
- MediaRecorder internals: `captureStream`, data chunks, Blob assembly and `URL.createObjectURL` are not modelled; a resolved run's URL is not produced, only the recorder's start/stop lifecycle.
- Timers: `setTimeout` becomes a logged wait of the given milliseconds; real time, `performance.now()` and `drawTime` are not modelled.
- The async/await scheduling is not modelled; each generator is one sequential run.
- Image decoding in the two block renderers: the decoded size, or a decode failure, is a parameter (`Capture.Browser`), as is the availability of their canvas and offscreen contexts; the `if (!ctx)` re-checks inside `drawBlock` cannot fail once the first check passed and are not modelled separately.
- TextVideo.GenerateVideoText: assumes `svgToImage(hand1)` resolves and `getContext('2d')!` returns a context (GenerateVideoText.ts:22, 30); a rejected SVG load or a missing context, which make the generator reject before any recorder exists, are not modelled. The hand image is drawn by position only.
- PacedTextVideo.GeneratePacedVideoText: assumes the same of `svgToImage` and `getContext('2d')!` (GenerateVideoText.tsx:22, 30); the reject-before-recording path is not modelled.
- DrawingCanvas.RenderPreview: assumes the canvas element and its 2D context exist; the effect's early returns without them (DrawingCanvas.tsx:26, 29) are modelled only for a missing mode.
- IEEE floating point: geometry and progress use exact reals, so rounding, `Infinity` and NaN arithmetic are not modelled. An id that does not parse as `digits-digits` is treated as naming no cell, standing for the NaN coordinates with which `drawImage` paints nothing.
- `Number(...)` on ids is modelled only for decimal digit strings; other numeric forms (`" 1"`, `"1e0"`, `"0x1"`) are not.
- `parseInt` is modelled by its result (`DrawingSettings.Parsed`: an integer or NaN); its string scanning is not.
- `trim()` is modelled only through whether the text is blank; case and Unicode normalisation do not occur in the core.
- Strings are sequences of Dafny characters, which are Unicode scalar values. This matches the code-point iteration of `for ... of` in GenerateVideoText.ts, GenerateVideoText.tsx and DrawingCanvas.tsx, but not `split('')` in generator.tsx:84, which splits into UTF-16 code units: a character outside the Basic Multilingual Plane is one glyph in the model and two half-surrogate glyphs, two reports and two waits in the source. Lone surrogates are not modelled.
- BmpVideo.GenerateVideoBmp: requires a positive fps, a non-negative frame size and a decoded image of positive size. With fps 0 or NaN (possible through `parseInt` in DrawingSettings.tsx:90) the wait is `Infinity` or NaN, and a zero-size image gives NaN geometry; exact reals cannot express either. Rows and columns of 0 are modelled (an empty grid); NaN rows or columns, which also give an empty grid in the source, are not, because the model's counts are natural numbers.
- LegacyGenerator.GenerateVideo: requires the same fps, frame and image conditions as the BMP generator, for the same reasons. An image run with 0 rows or columns and a non-empty selection is not modelled: the selected ids are swept with an infinite block size, so the loops across the infinite extent never end and the others draw only non-finite rectangles, which the canvas ignores.
- BmpVideo.StepOnce: every progress event assumes the optional `onProgress` callback is supplied; the source calls it only when given (`onProgress?.()`, `if (onProgress)`), and no caller in the application supplies it, so there a run has no progress events. The progress lemmas describe the values a supplied callback would receive.
- LegacyGenerator.ReportStep: assumes `onProgress` is supplied, as for BmpVideo.StepOnce (generator.tsx:223-228, 268-272, 312-316, 357-361).
- LegacyGenerator.DrawText: assumes `onProgress` is supplied, as for BmpVideo.StepOnce (generator.tsx:100).
- TextVideo.Frame: assumes `onProgress` is supplied, as for BmpVideo.StepOnce (GenerateVideoText.ts:88).
- PacedTextVideo.PacedFrame: assumes `onProgress` is supplied, as for BmpVideo.StepOnce (GenerateVideoText.tsx:92).
- TextVideo.GenerateVideoText: requires a positive fps, because the frame wait divides by it.
- PacedTextVideo.GeneratePacedVideoText: requires a positive fps, for the same reason.
- HomePage.Home.HandleStart: the generator's answer is a parameter (resolved with a URL, or thrown), not a call into `generateVideoBMP`.
- GenerateButton.Button.HandleClick: the generator's answer is a parameter, and `console.error` is not modelled.
- HomePage: the direction radio buttons and the fps select are plain setters with no rule and are not modelled as actions; the fps select shows 30 while the page's state starts at 120, which the model keeps as 120. Clearing the DOM file input's value on cancel is not modelled.
- HomePage: the rows and cols fields hold `Number(...)` of the typed text as an integer; fractional or NaN values are not modelled.
- DrawingSettings: the direction radio buttons and the fps field (`setFps(parseInt(...))`) are plain setter calls and are not modelled.
- React rendering, JSX and styling, `App.tsx`, `UploadPanel.tsx`, and `DrawingApp.tsx` beyond its input-type mapping are not part of this model.
