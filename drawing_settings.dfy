/**
 * The grid fields of src/components/DrawingSettings.tsx: a value typed into the rows or cols
 * field is parsed with `parseInt`, clamped into 1..50, handed to the setter of that dimension,
 * and, when the parent passed `onGridChangeEffect`, reported together with the other dimension.
 */
module DrawingSettings {
  const MinGrid: int := 1
  const MaxGrid: int := 50

  /** What `parseInt` gives: an integer, or NaN for a field that holds no number. */
  datatype Parsed = Int(value: int) | NaN

  /** The field that changed: `'rows'` or `'cols'`. */
  datatype Dimension = Rows | Cols

  /** A call handleGridChange makes. */
  datatype Call =
    | SetRows(rows: Parsed)
    | SetCols(cols: Parsed)
    | GridEffect(rows: Parsed, cols: Parsed)   // onGridChangeEffect(rows, cols)

  /** `Math.max(1, Math.min(50, value))`; both give NaN for NaN. */
  function Clamp(value: Parsed): (v: Parsed)
    ensures value.NaN? <==> v.NaN?
    ensures v.Int? ==> MinGrid <= v.value <= MaxGrid
    ensures value.Int? && MinGrid <= value.value <= MaxGrid ==> v == value
    ensures value.Int? && value.value < MinGrid ==> v == Int(MinGrid)
    ensures value.Int? && value.value > MaxGrid ==> v == Int(MaxGrid)
  {
    match value
    case NaN => NaN
    case Int(n) =>
      var low := if MaxGrid < n then MaxGrid else n;
      Int(if MinGrid > low then MinGrid else low)
  }

  /** handleGridChange (lines 28-38): the setter of the changed dimension, then the effect if any. */
  function GridChange(dim: Dimension, value: Parsed, rows: Parsed, cols: Parsed, hasEffect: bool): seq<Call> {
    var v := Clamp(value);
    var setter := if dim == Rows then SetRows(v) else SetCols(v);
    var effect := if hasEffect then [GridEffect(if dim == Rows then v else rows, if dim == Cols then v else cols)] else [];
    [setter] + effect
  }

  /** The (rows, cols) pair after a call, as the parent's state holds it. */
  function AfterCall(rows: Parsed, cols: Parsed, call: Call): (Parsed, Parsed) {
    match call
    case SetRows(r) => (r, cols)
    case SetCols(c) => (rows, c)
    case GridEffect(_, _) => (rows, cols)
  }

  // ---------------------------------------------------------------------------------------
  // Properties

  /** Clamping twice is clamping once. */
  lemma ClampIdempotent(value: Parsed)
    ensures Clamp(Clamp(value)) == Clamp(value)
  {
  }

  /** A larger number never clamps to a smaller one. */
  lemma ClampMonotone(a: int, b: int)
    requires a <= b
    ensures Clamp(Int(a)).value <= Clamp(Int(b)).value
  {
  }

  /**
   * Only the setter of the changed dimension is called, with the clamped value; the effect comes
   * after it, exactly when the parent passed one, and sees the grid as the setter left it.
   */
  lemma GridChangeCalls(dim: Dimension, value: Parsed, rows: Parsed, cols: Parsed, hasEffect: bool)
    ensures var calls := GridChange(dim, value, rows, cols, hasEffect);
      |calls| == (if hasEffect then 2 else 1) &&
      (dim == Rows ==> calls[0] == SetRows(Clamp(value))) &&
      (dim == Cols ==> calls[0] == SetCols(Clamp(value))) &&
      (forall k :: 1 <= k < |calls| ==> calls[k].GridEffect?)
    ensures var calls := GridChange(dim, value, rows, cols, hasEffect);
      hasEffect ==>
        var after := AfterCall(rows, cols, calls[0]);
        calls[1] == GridEffect(after.0, after.1)
  {
  }

  /** A number typed into a field always leaves that dimension in 1..50. */
  lemma TypedNumberInRange(dim: Dimension, n: int, rows: Parsed, cols: Parsed, hasEffect: bool)
    ensures var after := AfterCall(rows, cols, GridChange(dim, Int(n), rows, cols, hasEffect)[0]);
      var changed := if dim == Rows then after.0 else after.1;
      changed.Int? && MinGrid <= changed.value <= MaxGrid
    ensures var after := AfterCall(rows, cols, GridChange(dim, Int(n), rows, cols, hasEffect)[0]);
      (dim == Rows ==> after.1 == cols) && (dim == Cols ==> after.0 == rows)
  {
  }
}
