/**
 * The drawing surface and the MediaRecorder of one generator run, as one object: every draw
 * call, progress callback, timer wait and recorder call is appended to `events`, and the
 * recorder's lifecycle is the field `state` (idle -> recording -> stopped).
 */
module Capture {
  import opened Results
  import opened Geometry

  datatype RecorderState = Idle | Recording | Stopped

  /** The two kinds of input a generator renders: `'text'` and `'bmp'`. */
  datatype InputType = Text | Bmp

  /** A decoded image; only its size matters to the geometry. */
  datatype Image = Image(width: real, height: real)

  /**
   * What the browser answers a run: whether the main canvas and the offscreen canvas give a 2D
   * context, and the decoded image, or None when decoding fails.
   */
  datatype Browser = Browser(contextOk: bool, decoded: Option<Image>, offscreenOk: bool)

  /** Why a generator throws. */
  datatype GenError =
    | NoInputType          // no input type given
    | NoContext            // the main canvas has no 2D context
    | NoText               // text missing, empty or white space only
    | NoBmpFile            // no image file given
    | DecodeFailed         // the image could not be decoded
    | NoOffscreenContext   // the offscreen canvas has no 2D context

  /** What a run leaves behind: the recorded effects, the recorder's state, and what it returned. */
  datatype Trace = Trace(events: seq<Event>, state: RecorderState, result: Result<(), GenError>)

  /**
   * What the caller of a generator sees when it awaits the run: the promise resolves with
   * `{ videoUrl }`, or it rejects.
   */
  datatype Outcome = Resolved(url: string) | Thrown

  /** One observable effect of a run. */
  datatype Event =
    | FillRect(color: string, area: Rect)      // ctx.fillStyle = color; ctx.fillRect(...)
    | DrawImage(src: Rect, dest: Rect)         // ctx.drawImage(offCanvas, src..., dest...)
    | FillText(color: string, ch: char, x: real, y: real)  // ctx.fillStyle = color; ctx.fillText(ch, x, y)
    | DrawHand(area: Rect)                     // ctx.drawImage(handImage, ...)
    | Save                                     // ctx.save()
    | Translate(dx: real, dy: real)            // ctx.translate(dx, dy)
    | Restore                                  // ctx.restore()
    | Percent(value: real)                     // onProgress(percent)
    | FrameDone(frame: nat, total: nat)        // onProgress(frame, total)
    | Wait(ms: real)                           // await setTimeout(ms)
    | RecorderStart                            // mediaRecorder.start()
    | RecorderStop                             // mediaRecorder.stop()

  /** The events a session records that are paints, progress calls or waits. */
  predicate IsPaintOrTick(e: Event) {
    !e.RecorderStart? && !e.RecorderStop?
  }

  /** Appending to a log in two steps is appending the two pieces at once. */
  lemma AppendAssoc(a: seq<Event>, b: seq<Event>, c: seq<Event>)
    ensures a + b + c == a + (b + c)
  {
  }

  class Session {
    var events: seq<Event>
    var state: RecorderState

    constructor ()
      ensures events == [] && state == Idle
    {
      events := [];
      state := Idle;
    }

    /** A draw call, a progress callback or a wait. */
    method Emit(e: Event)
      requires IsPaintOrTick(e)
      modifies this
      ensures events == old(events) + [e] && state == old(state)
    {
      events := events + [e];
    }

    /** `mediaRecorder.start()`; the recorder refuses it while it is already recording. */
    method Start()
      requires state != Recording
      modifies this
      ensures state == Recording && events == old(events) + [RecorderStart]
    {
      events := events + [RecorderStart];
      state := Recording;
    }

    /** `mediaRecorder.stop()`; a recorder that is not recording ignores it. */
    method Stop()
      modifies this
      ensures old(state) == Recording ==> state == Stopped && events == old(events) + [RecorderStop]
      ensures old(state) != Recording ==> state == old(state) && events == old(events)
    {
      if state == Recording {
        events := events + [RecorderStop];
        state := Stopped;
      }
    }
  }
}
