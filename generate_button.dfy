/**
 * The start button of src/components/GenerateButton.tsx: a click is refused with an alert when no
 * input type is chosen or when a picture and non-blank text are both given; otherwise the
 * button sets its `loading` flag, calls the generator of the input type, hands a returned URL
 * to `onGenerated` or alerts on a throw, and clears the flag again in `finally`. The effects the
 * handler has on the world are logged in order.
 */
module GenerateButton {
  import opened Results
  import opened JsBuiltins
  import opened Capture
  import opened RevealPlan
  import opened DrawingCanvas

  /** The button's props. `hasImage` says whether `image` is a file. */
  datatype Props = Props(
    inputType: Option<InputType>,
    hasImage: bool,
    text: string,
    rows: int,
    cols: int,
    fps: real,
    direction: Option<Direction>,
    selected: seq<string>)

  /** The arguments of the generator call. */
  datatype Request =
    | TextRequest(text: string, fps: real, canvasWidth: real, canvasHeight: real)
    | BmpRequest(hasFile: bool, rows: int, cols: int, fps: real, selected: seq<string>, direction: Option<Direction>)

  /** Why the handler alerts. */
  datatype AlertReason = MissingInputType | TextAndImage | GenerationFailed

  /** One effect of the click handler. */
  datatype Effect =
    | Alert(reason: AlertReason)
    | SetLoading(on: bool)
    | Generate(request: Request)   // await generateVideoText(...) or generateVideoBMP(...)
    | Generated(url: string)       // onGenerated(result.videoUrl)

  /** DrawingApp passes `mode === 'image' ? 'bmp' : mode` as the input type (src/components/DrawingApp.tsx). */
  function ButtonInputType(mode: Option<Mode>): (t: Option<InputType>)
    ensures t.None? <==> mode.None?
    ensures t == Some(Bmp) <==> mode == Some(ImageMode)
    ensures t == Some(Text) <==> mode == Some(TextMode)
  {
    match mode
    case None => None
    case Some(ImageMode) => Some(Bmp)
    case Some(TextMode) => Some(Text)
  }

  /** The guards of lines 31-39: the alert a click ends with before any work, if any. */
  function Refusal(p: Props): Option<AlertReason> {
    if p.inputType.None? then Some(MissingInputType)
    else if p.hasImage && !IsBlank(p.text) then Some(TextAndImage)
    else None
  }

  /** Lines 44-62: text goes to generateVideoText on an 800 x 600 canvas, 'bmp' to generateVideoBMP. */
  function RequestOf(p: Props): Request
    requires p.inputType.Some?
  {
    if p.inputType == Some(Text) then TextRequest(p.text, p.fps, 800.0, 600.0)
    else BmpRequest(p.hasImage, p.rows, p.cols, p.fps, p.selected, p.direction)
  }

  /** handleClick (lines 30-70), with what the awaited generator does as a parameter. */
  function ClickEffects(p: Props, outcome: Outcome): seq<Effect> {
    match Refusal(p)
    case Some(reason) => [Alert(reason)]
    case None =>
      var answer := match outcome
        case Resolved(url) => Generated(url)
        case Thrown => Alert(GenerationFailed);
      [SetLoading(true), Generate(RequestOf(p)), answer, SetLoading(false)]
  }

  /** `disabled={loading || !inputType}` (line 74). */
  predicate Disabled(loading: bool, inputType: Option<InputType>) {
    loading || inputType.None?
  }

  /** The button component: its `loading` state and the log of what its handler did. */
  class Button {
    var loading: bool
    var log: seq<Effect>

    constructor ()
      ensures !loading && log == []
    {
      loading := false;
      log := [];
    }

    /** The answer of the awaited generator. */
    method Await(p: Props, outcome: Outcome)
      requires p.inputType.Some?
      modifies this
      ensures loading == old(loading)
      ensures log == old(log) + [Generate(RequestOf(p)),
                                 if outcome.Resolved? then Generated(outcome.url) else Alert(GenerationFailed)]
    {
      var request: Request;
      if p.inputType == Some(Text) {
        request := TextRequest(p.text, p.fps, 800.0, 600.0);
      } else {
        request := BmpRequest(p.hasImage, p.rows, p.cols, p.fps, p.selected, p.direction);
      }
      log := log + [Generate(request)];
      match outcome {
        case Resolved(url) =>
          log := log + [Generated(url)];
        case Thrown =>
          log := log + [Alert(GenerationFailed)];
      }
    }

    method HandleClick(p: Props, outcome: Outcome)
      modifies this
      ensures log == old(log) + ClickEffects(p, outcome)
      ensures loading == (if Refusal(p).Some? then old(loading) else false)
    {
      if p.inputType.None? {
        log := log + [Alert(MissingInputType)];
        return;
      }
      if p.hasImage && !IsBlank(p.text) {
        log := log + [Alert(TextAndImage)];
        return;
      }
      loading := true;
      log := log + [SetLoading(true)];
      Await(p, outcome);
      loading := false;
      log := log + [SetLoading(false)];
    }
  }

  // ---------------------------------------------------------------------------------------
  // Properties

  /** A refused click only alerts: it neither sets the flag nor calls a generator. */
  lemma RefusedClickOnlyAlerts(p: Props, outcome: Outcome)
    ensures p.inputType.None? ==> ClickEffects(p, outcome) == [Alert(MissingInputType)]
    ensures p.inputType.Some? && p.hasImage && !IsBlank(p.text) ==> ClickEffects(p, outcome) == [Alert(TextAndImage)]
    ensures Refusal(p).Some? ==>
      forall k :: 0 <= k < |ClickEffects(p, outcome)| ==>
        !ClickEffects(p, outcome)[k].SetLoading? && !ClickEffects(p, outcome)[k].Generate?
  {
  }

  /**
   * Once the flag is set it is cleared again on every path, success or throw: an accepted click
   * starts with setting it, ends with clearing it, and touches it nowhere in between.
   */
  lemma LoadingBracketsTheCall(p: Props, outcome: Outcome)
    requires Refusal(p).None?
    ensures var e := ClickEffects(p, outcome);
      |e| == 4 && e[0] == SetLoading(true) && e[|e| - 1] == SetLoading(false) &&
      (forall k :: 0 < k < |e| - 1 ==> !e[k].SetLoading?) && e[1] == Generate(RequestOf(p))
  {
  }

  /** The generator called and its arguments follow the input type. */
  lemma Dispatch(p: Props, outcome: Outcome)
    requires Refusal(p).None?
    ensures p.inputType == Some(Text) ==>
      Generate(TextRequest(p.text, p.fps, 800.0, 600.0)) in ClickEffects(p, outcome)
    ensures p.inputType == Some(Bmp) ==>
      Generate(BmpRequest(p.hasImage, p.rows, p.cols, p.fps, p.selected, p.direction)) in ClickEffects(p, outcome)
  {
    assert ClickEffects(p, outcome)[1] == Generate(RequestOf(p));
  }

  /** `onGenerated` is called only after a generation that resolved, and with its URL. */
  lemma GeneratedOnlyOnSuccess(p: Props, outcome: Outcome, url: string)
    ensures Generated(url) in ClickEffects(p, outcome) <==> Refusal(p).None? && outcome == Resolved(url)
    ensures Alert(GenerationFailed) in ClickEffects(p, outcome) <==> Refusal(p).None? && outcome.Thrown?
  {
    var e := ClickEffects(p, outcome);
    if Refusal(p).None? {
      assert e[2] == (if outcome.Resolved? then Generated(outcome.url) else Alert(GenerationFailed));
    }
  }

  /** An enabled button never meets the missing-input-type guard. */
  lemma EnabledHasInputType(loading: bool, p: Props, outcome: Outcome)
    requires !Disabled(loading, p.inputType)
    ensures Alert(MissingInputType) !in ClickEffects(p, outcome)
    ensures !loading
  {
  }
}
