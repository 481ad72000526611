/**
 * The order in which the two block renderers sweep the blocks: the ids a caller selected
 * first, then the others in raster order. src/shared/utils/generateVideoBMP.tsx and
 * src/features/generator.tsx build this plan differently; each has its own functions here.
 */
module RevealPlan {
  import opened JsBuiltins
  import opened BlockIds

  /** The direction in which every block is revealed. */
  datatype Direction = TopBottom | BottomTop | LeftRight | RightLeft

  // ---------------------------------------------------------------------------------------
  // generateVideoBMP.tsx

  /** `(selectedBlocks?.length ? selectedBlocks : allBlocks).filter(b => allBlocks.includes(b))` */
  function BmpChosen(selected: seq<string>, all: seq<string>): seq<string> {
    Filter(if |selected| > 0 then selected else all, b => b in all)
  }

  /** `allBlocks.filter(b => !chosenSet.has(b))` */
  function BmpNotChosen(all: seq<string>, chosen: seq<string>): seq<string> {
    Filter(all, b => b !in chosen)
  }

  /** The blocks in the order the two `for ... of` loops sweep them. */
  function BmpPlan(selected: seq<string>, rows: nat, cols: nat): seq<string> {
    var all := AllBlocks(rows, cols);
    var chosen := BmpChosen(selected, all);
    chosen + BmpNotChosen(all, chosen)
  }

  /**
   * A selected id that is not a block of the grid is silently dropped; a selection made only of
   * grid blocks is kept as given, order included.
   */
  lemma BmpChosenDropsUnknown(selected: seq<string>, rows: nat, cols: nat)
    requires |selected| > 0
    ensures forall id :: id in BmpChosen(selected, AllBlocks(rows, cols)) <==>
      id in selected && id in AllBlocks(rows, cols)
    ensures (forall i :: 0 <= i < |selected| ==> selected[i] in AllBlocks(rows, cols)) ==>
      BmpChosen(selected, AllBlocks(rows, cols)) == selected
  {
    var all := AllBlocks(rows, cols);
    if forall i :: 0 <= i < |selected| ==> selected[i] in all {
      FilterKeepsAll(selected, b => b in all);
    }
  }

  /** With nothing selected every block is chosen, in raster order, and none is left over. */
  lemma BmpEmptySelection(rows: nat, cols: nat)
    ensures BmpChosen([], AllBlocks(rows, cols)) == AllBlocks(rows, cols)
    ensures BmpNotChosen(AllBlocks(rows, cols), AllBlocks(rows, cols)) == []
    ensures BmpPlan([], rows, cols) == AllBlocks(rows, cols)
  {
    var all := AllBlocks(rows, cols);
    FilterKeepsAll(all, b => b in all);
    FilterDropsAll(all, b => b !in all);
  }

  /**
   * For a selection without repeats, the plan sweeps every block of the grid exactly once:
   * it has no repeats and is a permutation of the raster-order list.
   */
  lemma BmpPlanIsPermutation(selected: seq<string>, rows: nat, cols: nat)
    requires Distinct(selected)
    ensures Distinct(BmpPlan(selected, rows, cols))
    ensures multiset(BmpPlan(selected, rows, cols)) == multiset(AllBlocks(rows, cols))
  {
    var all := AllBlocks(rows, cols);
    var chosen := BmpChosen(selected, all);
    var rest := BmpNotChosen(all, chosen);
    AllBlocksDistinct(rows, cols);
    FilterDistinct(if |selected| > 0 then selected else all, b => b in all);
    FilterDistinct(all, b => b !in chosen);
    var chosenInAll := Filter(all, b => b in chosen);
    FilterDistinct(all, b => b in chosen);
    SameMembersSameMultiset(chosen, chosenInAll);
    FilterPartition(all, b => b in chosen, b => b !in chosen);
    var plan := chosen + rest;
    forall i, j | 0 <= i < j < |plan|
      ensures plan[i] != plan[j]
    {
      if i < |chosen| && |chosen| <= j {
        assert plan[j] in rest;
      }
    }
  }

  // ---------------------------------------------------------------------------------------
  // generator.tsx

  /** `(selectedBlocks && selectedBlocks.length > 0) ? selectedBlocks : allBlocks` */
  function LegacyChosen(selected: seq<string>, all: seq<string>): seq<string> {
    if |selected| > 0 then selected else all
  }

  /** `allBlocks.filter(b => !new Set(selectedBlocks).has(b))` */
  function LegacyNotChosen(selected: seq<string>, all: seq<string>): seq<string> {
    Filter(all, b => b !in selected)
  }

  /** The blocks in the order the two loops of generator.tsx sweep them. */
  function LegacyPlan(selected: seq<string>, rows: nat, cols: nat): seq<string> {
    var all := AllBlocks(rows, cols);
    LegacyChosen(selected, all) + LegacyNotChosen(selected, all)
  }

  /** With nothing selected both lists are the whole grid, so every block is swept twice. */
  lemma LegacyEmptySelectionSweepsTwice(rows: nat, cols: nat)
    ensures LegacyPlan([], rows, cols) == AllBlocks(rows, cols) + AllBlocks(rows, cols)
    ensures forall id :: id in AllBlocks(rows, cols) ==> multiset(LegacyPlan([], rows, cols))[id] == 2
  {
    var all := AllBlocks(rows, cols);
    FilterKeepsAll(all, b => b !in []);
    AllBlocksDistinct(rows, cols);
    forall id | id in all
      ensures multiset(all + all)[id] == 2
    {
      DistinctCount(all, id);
    }
  }

  /**
   * A non-empty selection is swept first exactly as given: ids outside the grid and repeated
   * ids are not filtered out.
   */
  lemma LegacyKeepsSelection(selected: seq<string>, rows: nat, cols: nat)
    requires |selected| > 0
    ensures LegacyPlan(selected, rows, cols)[..|selected|] == selected
    ensures forall id :: id in LegacyPlan(selected, rows, cols) <==>
      id in selected || id in AllBlocks(rows, cols)
  {
    var plan := LegacyPlan(selected, rows, cols);
    assert plan[..|selected|] == selected;
  }

  /**
   * The two files agree on a non-empty selection of distinct grid blocks, and on an empty
   * selection generator.tsx sweeps the plan of generateVideoBMP.tsx twice over.
   */
  lemma LegacyPlanAgainstBmpPlan(selected: seq<string>, rows: nat, cols: nat)
    ensures |selected| == 0 ==>
      LegacyPlan(selected, rows, cols) == BmpPlan(selected, rows, cols) + BmpPlan(selected, rows, cols)
    ensures |selected| > 0 && (forall i :: 0 <= i < |selected| ==> selected[i] in AllBlocks(rows, cols)) ==>
      LegacyPlan(selected, rows, cols) == BmpPlan(selected, rows, cols)
  {
    var all := AllBlocks(rows, cols);
    if |selected| == 0 {
      BmpEmptySelection(rows, cols);
      LegacyEmptySelectionSweepsTwice(rows, cols);
    } else if forall i :: 0 <= i < |selected| ==> selected[i] in all {
      BmpChosenDropsUnknown(selected, rows, cols);
    }
  }

  /**
   * A grid without rows or without columns has no blocks: generateVideoBMP.tsx then sweeps
   * nothing whatever was selected, while generator.tsx still sweeps the selection as given.
   */
  lemma BlankGridPlan(selected: seq<string>, rows: nat, cols: nat)
    requires rows == 0 || cols == 0
    ensures AllBlocks(rows, cols) == []
    ensures BmpPlan(selected, rows, cols) == []
    ensures LegacyPlan(selected, rows, cols) == selected
  {
    assert rows * cols == 0;
    FilterDropsAll(if |selected| > 0 then selected else [], b => b in []);
  }
}
