/**
 * The Home page of src/features/index.tsx: its `useState` values and `prevDeepSettingsRef`, the
 * handlers that change them (choose a file, click a block, cancel, start) and the two effects
 * that react to rows, cols and the deep-settings checkbox. `HomeState` is the page's state as a
 * value and the functions below say what each handler, together with the effects it triggers,
 * makes of it; the class `Home` holds the same state in fields and its methods change them.
 */
module HomePage {
  import opened Results
  import opened JsBuiltins
  import opened Capture
  import opened RevealPlan
  import opened Selection

  /** The state of the page (`drawTime`, a clock reading, is not part of it). */
  datatype HomeState = HomeState(
    bmp: bool,                 // inputType === 'bmp' (it is otherwise null)
    file: Option<string>,      // the chosen file, by its name
    text: string,              // textInput
    rows: int,                 // Number(...) of the rows field
    cols: int,                 // Number(...) of the cols field
    selected: seq<string>,     // selectedBlocks
    dir: Direction,            // selectedDirection
    isLoading: bool,
    videoUrl: Option<string>,
    deep: bool,                // deepSettings
    prevDeep: bool,            // prevDeepSettingsRef.current
    fps: real)

  /** The arguments handleStart gives `generateVideoBMP`. */
  datatype BmpRequest = BmpRequest(
    file: Option<string>, text: string, dir: Direction, selected: seq<string>, rows: int, cols: int, fps: real)

  /** The state of a freshly mounted page. */
  function Initial(): HomeState {
    HomeState(false, None, "", 1, 1, [], TopBottom, false, None, false, false, 120.0)
  }

  /** `file && file.name.endsWith('.bmp')`. */
  predicate Accepts(picked: Option<string>) {
    picked.Some? && EndsWith(picked.value, ".bmp")
  }

  /** handleFileChange (lines 23-29). */
  function FileChanged(st: HomeState, picked: Option<string>): HomeState {
    if Accepts(picked) then st.(bmp := true, file := picked) else st
  }

  /** toggleBlock (lines 31-39). */
  function BlockToggled(st: HomeState, id: string): HomeState {
    st.(selected := Toggle(st.selected, id))
  }

  /** handleCancel (lines 41-50). */
  function Cancelled(st: HomeState): HomeState {
    st.(bmp := false, file := None, text := "", selected := [])
  }

  /**
   * `setRows(v)` and the effect on [rows, cols] (lines 77-80): a new value re-renders the page
   * and the effect clears the selection; the same value changes nothing.
   */
  function RowsSet(st: HomeState, v: int): HomeState {
    if v == st.rows then st else st.(rows := v, selected := [])
  }

  /** `setCols(v)` and the effect on [rows, cols]. */
  function ColsSet(st: HomeState, v: int): HomeState {
    if v == st.cols then st else st.(cols := v, selected := [])
  }

  /**
   * `setDeepSettings(v)` and the effect on [deepSettings] (lines 82-88): on a change, a ref that
   * still says true while the box is now unchecked resets rows and cols to 1, and the ref takes
   * the new value.
   */
  function DeepSettingsSet(st: HomeState, v: bool): HomeState {
    if v == st.deep then st
    else
      var s1 := st.(deep := v, prevDeep := v);
      if st.prevDeep && !v then ColsSet(RowsSet(s1, 1), 1) else s1
  }

  /** What handleStart sends the generator. */
  function Request(st: HomeState): BmpRequest {
    BmpRequest(st.file, st.text, st.dir, st.selected, st.rows, st.cols, st.fps)
  }

  /**
   * handleStart (lines 52-75): nothing without an input type; otherwise loading is set and the
   * old video dropped, and only a run that resolves stores its URL and clears the flag, since
   * there is no catch.
   */
  function Started(st: HomeState, outcome: Outcome): HomeState {
    if !st.bmp then st
    else
      var waiting := st.(isLoading := true, videoUrl := None);
      match outcome
      case Resolved(url) => waiting.(videoUrl := Some(url), isLoading := false)
      case Thrown => waiting
  }

  /** What the page keeps true: no block twice, the ref in step with the box, a type exactly with a file. */
  predicate Inv(st: HomeState) {
    Distinct(st.selected) && st.prevDeep == st.deep && (st.bmp <==> st.file.Some?)
  }

  /** One user action on the page, with what the browser and the generator answer it. */
  datatype Action =
    | PickFile(picked: Option<string>)
    | ClickBlock(id: string)
    | Cancel
    | EnterRows(rows: int)
    | EnterCols(cols: int)
    | CheckDeep(checked: bool)
    | Start(outcome: Outcome)

  function Apply(st: HomeState, a: Action): HomeState {
    match a
    case PickFile(picked) => FileChanged(st, picked)
    case ClickBlock(id) => BlockToggled(st, id)
    case Cancel => Cancelled(st)
    case EnterRows(v) => RowsSet(st, v)
    case EnterCols(v) => ColsSet(st, v)
    case CheckDeep(v) => DeepSettingsSet(st, v)
    case Start(outcome) => Started(st, outcome)
  }

  /** The state after a sequence of actions. */
  function Run(st: HomeState, actions: seq<Action>): HomeState
    decreases |actions|
  {
    if |actions| == 0 then st else Run(Apply(st, actions[0]), actions[1..])
  }

  /** The page as an object whose state setters change fields in place. */
  class Home {
    var bmp: bool
    var file: Option<string>
    var text: string
    var rows: int
    var cols: int
    var selected: seq<string>
    var dir: Direction
    var isLoading: bool
    var videoUrl: Option<string>
    var deep: bool
    var prevDeep: bool
    var fps: real

    function State(): HomeState
      reads this
    {
      HomeState(bmp, file, text, rows, cols, selected, dir, isLoading, videoUrl, deep, prevDeep, fps)
    }

    constructor ()
      ensures State() == Initial()
    {
      bmp, file, text := false, None, "";
      rows, cols, selected, dir := 1, 1, [], TopBottom;
      isLoading, videoUrl := false, None;
      deep, prevDeep, fps := false, false, 120.0;
    }

    method HandleFileChange(picked: Option<string>)
      modifies this
      ensures State() == FileChanged(old(State()), picked)
    {
      if picked.Some? && EndsWith(picked.value, ".bmp") {
        bmp := true;
        file := picked;
      }
    }

    method ToggleBlock(id: string)
      modifies this
      ensures State() == BlockToggled(old(State()), id)
    {
      if id in selected {
        selected := Without(selected, id);
      } else {
        selected := selected + [id];
      }
    }

    method HandleCancel()
      modifies this
      ensures State() == Cancelled(old(State()))
    {
      bmp := false;
      file := None;
      text := "";
      selected := [];
    }

    /** The rows field's onChange, then the grid effect if the value changed. */
    method SetRows(v: int)
      modifies this
      ensures State() == RowsSet(old(State()), v)
    {
      if v != rows {
        rows := v;
        selected := [];
      }
    }

    /** The cols field's onChange, then the grid effect if the value changed. */
    method SetCols(v: int)
      modifies this
      ensures State() == ColsSet(old(State()), v)
    {
      if v != cols {
        cols := v;
        selected := [];
      }
    }

    /** The checkbox's onChange, then the deep-settings effect if the value changed. */
    method SetDeepSettings(v: bool)
      modifies this
      ensures State() == DeepSettingsSet(old(State()), v)
    {
      if v != deep {
        deep := v;
        if prevDeep && !deep {
          SetRows(1);
          SetCols(1);
        }
        prevDeep := deep;
      }
    }

    /** handleStart, with the generator's answer as a parameter; returns the request it sent, if any. */
    method HandleStart(outcome: Outcome) returns (sent: Option<BmpRequest>)
      modifies this
      ensures State() == Started(old(State()), outcome)
      ensures sent == if old(bmp) then Some(Request(old(State()))) else None
    {
      if !bmp {
        return None;
      }
      isLoading := true;
      videoUrl := None;
      sent := Some(BmpRequest(file, text, dir, selected, rows, cols, fps));
      match outcome {
        case Resolved(url) =>
          videoUrl := Some(url);
          isLoading := false;
        case Thrown =>
      }
    }
  }

  // ---------------------------------------------------------------------------------------
  // Properties

  /** Only a name ending in ".bmp" is taken, and taking it selects the 'bmp' input type. */
  lemma FileChangeRule(st: HomeState, picked: Option<string>)
    ensures Accepts(picked) ==> FileChanged(st, picked).bmp && FileChanged(st, picked).file == picked
    ensures !Accepts(picked) ==> FileChanged(st, picked) == st
    ensures picked.Some? && |picked.value| < 4 ==> FileChanged(st, picked) == st
  {
  }

  /** A page where no file was taken ignores Start: nothing is sent and the state stays as it is. */
  lemma NoStartWithoutFile(st: HomeState, picked: Option<string>, outcome: Outcome)
    requires Inv(st) && st.file.None? && !Accepts(picked)
    ensures Started(FileChanged(st, picked), outcome) == st
  {
  }

  /** Cancel empties the input and the selection, keeps the grid, and leaves Start with nothing to do. */
  lemma CancelResets(st: HomeState, outcome: Outcome)
    ensures var c := Cancelled(st);
      !c.bmp && c.file.None? && c.text == "" && c.selected == [] &&
      c.rows == st.rows && c.cols == st.cols && c.deep == st.deep
    ensures Cancelled(Cancelled(st)) == Cancelled(st)
    ensures Started(Cancelled(st), outcome) == Cancelled(st)
  {
  }

  /** Any change of rows or cols clears the selection; entering the same value keeps it. */
  lemma GridChangeClearsSelection(st: HomeState, v: int)
    ensures v != st.rows ==> RowsSet(st, v).rows == v && RowsSet(st, v).selected == []
    ensures v != st.cols ==> ColsSet(st, v).cols == v && ColsSet(st, v).selected == []
    ensures v == st.rows ==> RowsSet(st, v) == st
    ensures v == st.cols ==> ColsSet(st, v) == st
  {
  }

  /**
   * Unchecking deep settings resets the grid to 1 x 1 (and so clears the selection unless the
   * grid was already 1 x 1); checking it, or setting the same value, leaves rows and cols alone.
   * Either way the ref ends equal to the box.
   */
  lemma DeepSettingsReset(st: HomeState, v: bool)
    requires Inv(st)
    ensures var d := DeepSettingsSet(st, v); d.deep == v && d.prevDeep == v
    ensures st.deep && !v ==>
      var d := DeepSettingsSet(st, v);
      d.rows == 1 && d.cols == 1 && (st.rows != 1 || st.cols != 1 ==> d.selected == [])
    ensures !(st.deep && !v) ==>
      var d := DeepSettingsSet(st, v);
      d.rows == st.rows && d.cols == st.cols && d.selected == st.selected
  {
  }

  /**
   * Start does nothing without an input type. With one, a run that resolves leaves the page
   * idle showing its URL, and a run that throws leaves the loading screen up with no video.
   */
  lemma StartLifecycle(st: HomeState, outcome: Outcome)
    ensures !st.bmp ==> Started(st, outcome) == st
    ensures st.bmp && outcome.Resolved? ==>
      !Started(st, outcome).isLoading && Started(st, outcome).videoUrl == Some(outcome.url)
    ensures st.bmp && outcome.Thrown? ==>
      Started(st, outcome).isLoading && Started(st, outcome).videoUrl.None?
    ensures Started(st, outcome).selected == st.selected && Started(st, outcome).rows == st.rows
  {
  }

  /** Every action keeps the page's invariant. */
  lemma ApplyKeepsInv(st: HomeState, a: Action)
    requires Inv(st)
    ensures Inv(Apply(st, a))
  {
    match a
    case ClickBlock(id) => ToggleKeepsDistinct(st.selected, id);
    case _ =>
  }

  /** From the freshly mounted page, any sequence of actions reaches only states that keep it. */
  lemma {:induction false} RunKeepsInv(st: HomeState, actions: seq<Action>)
    requires Inv(st)
    ensures Inv(Run(st, actions))
    decreases |actions|
  {
    if |actions| > 0 {
      ApplyKeepsInv(st, actions[0]);
      RunKeepsInv(Apply(st, actions[0]), actions[1..]);
    }
  }

  /** In particular every reachable page shows each selected block once, numbered by its position. */
  lemma ReachableNumbering(actions: seq<Action>, i: nat)
    requires i < |Run(Initial(), actions).selected|
    ensures var sel := Run(Initial(), actions).selected; BlockNumber(sel, sel[i]) == i + 1
  {
    RunKeepsInv(Initial(), actions);
    NumbersArePositions(Run(Initial(), actions).selected, i);
  }
}
