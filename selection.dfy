/**
 * The block selection shared by the home page (src/features/index.tsx) and the drawing canvas
 * (src/components/DrawingCanvas.tsx): a click on a block removes its id from the list when it is
 * there and appends it at the end when it is not; a selected block shows its 1-based position in
 * the list.
 */
module Selection {
  import opened JsBuiltins

  /** `s.filter(b => b !== id)`. */
  function Without(s: seq<string>, id: string): seq<string> {
    Filter(s, b => b != id)
  }

  /** `prev.includes(id) ? prev.filter(b => b !== id) : [...prev, id]`. */
  function Toggle(prev: seq<string>, id: string): (next: seq<string>)
    ensures id in next <==> id !in prev
    ensures forall x :: x != id ==> (x in next <==> x in prev)
    ensures |next| <= |prev| + 1
  {
    if id in prev then Without(prev, id) else prev + [id]
  }

  /** `selectedBlocks.indexOf(id) + 1`: 0 for a block that is not selected. */
  function BlockNumber(selected: seq<string>, id: string): (n: int)
    ensures n == 0 <==> id !in selected
    ensures id in selected ==> 1 <= n <= |selected| && selected[n - 1] == id && id !in selected[..n - 1]
  {
    IndexOf(selected, id) + 1
  }

  // ---------------------------------------------------------------------------------------
  // Properties

  /** Nothing is removed from a list that does not hold id. */
  lemma {:induction false} WithoutAbsent(s: seq<string>, id: string)
    requires id !in s
    ensures Without(s, id) == s
  {
    FilterKeepsAll(s, b => b != id);
  }

  /** Removing id twice is removing it once. */
  lemma WithoutIdempotent(s: seq<string>, id: string)
    ensures Without(Without(s, id), id) == Without(s, id)
  {
    WithoutAbsent(Without(s, id), id);
  }

  /** A toggle never introduces a duplicate. */
  lemma ToggleKeepsDistinct(prev: seq<string>, id: string)
    requires Distinct(prev)
    ensures Distinct(Toggle(prev, id))
  {
    if id in prev {
      FilterDistinct(prev, b => b != id);
    }
  }

  /**
   * Apart from id the list keeps its members in their order; an absent id goes to the end,
   * behind everything that was selected before.
   */
  lemma ToggleKeepsOthersInOrder(prev: seq<string>, id: string)
    ensures Without(Toggle(prev, id), id) == Without(prev, id)
    ensures id !in prev ==>
      |Toggle(prev, id)| == |prev| + 1 && Toggle(prev, id)[..|prev|] == prev && Toggle(prev, id)[|prev|] == id
  {
    if id in prev {
      WithoutIdempotent(prev, id);
    } else {
      FilterAppend(prev, [id], b => b != id);
      assert Without([id], id) == [] by {
        FilterDropsAll([id], b => b != id);
      }
      assert prev + [] == prev;
    }
  }

  /**
   * Clicking the same block twice gives the selection back when it was unselected, and moves it
   * to the end of the list when it was selected.
   */
  lemma ToggleTwice(prev: seq<string>, id: string)
    ensures id !in prev ==> Toggle(Toggle(prev, id), id) == prev
    ensures id in prev ==> Toggle(Toggle(prev, id), id) == Without(prev, id) + [id]
  {
    if id !in prev {
      ToggleKeepsOthersInOrder(prev, id);
      WithoutAbsent(prev, id);
    }
  }

  /**
   * In a selection without repeats, the block at position i shows the number i + 1, so the
   * shown numbers are 1 .. |selected| and distinct blocks show distinct numbers.
   */
  lemma NumbersArePositions(selected: seq<string>, i: nat)
    requires Distinct(selected) && i < |selected|
    ensures BlockNumber(selected, selected[i]) == i + 1
  {
    IndexOfDistinct(selected, i);
  }

  /** Two different selected blocks never show the same number. */
  lemma NumbersDistinct(selected: seq<string>, x: string, y: string)
    requires x in selected && y in selected && x != y
    ensures BlockNumber(selected, x) != BlockNumber(selected, y)
  {
  }

  /** Toggling a newly selected block gives it the last number. */
  lemma NewBlockNumberedLast(prev: seq<string>, id: string)
    requires Distinct(prev) && id !in prev
    ensures BlockNumber(Toggle(prev, id), id) == |prev| + 1
  {
    ToggleKeepsDistinct(prev, id);
    ToggleKeepsOthersInOrder(prev, id);
    NumbersArePositions(Toggle(prev, id), |prev|);
  }
}
