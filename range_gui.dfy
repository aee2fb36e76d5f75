/**
 * The state behind the range selector window: the set of selected hands,
 * one checkable button per grid cell, the displayed percentage and the
 * selected position and range type. Widgets, layout and styling are not
 * modelled; a button is its text and its checked flag.
 */
module RangeGui {
  import opened Enumerations
  import opened RangeCalculator
  import opened HandGrid
  import opened RangeDatabase

  /** The choices of the position selector, in display order. */
  const Positions: seq<string> := ["UTG", "UTG+1", "UTG+2", "LJ", "HJ", "CO", "BTN", "SB", "BB"]

  /** The choices of the range type selector, in display order. */
  const RangeTypes: seq<string> := ["Open", "3-Bet", "4-Bet", "Call 3-Bet"]

  /** toggle_hand on the range alone: `add` when checked, `discard` otherwise. */
  function Toggled(range: set<string>, hand: string, checked: bool): (r: set<string>)
    ensures hand in r <==> checked
    ensures forall h :: h != hand ==> (h in r <==> h in range)
  {
    if checked then range + {hand} else range - {hand}
  }

  /** Toggling a hand to the same state twice is the same as once. */
  lemma ToggleIdempotent(range: set<string>, hand: string, checked: bool)
    ensures Toggled(Toggled(range, hand, checked), hand, checked) == Toggled(range, hand, checked)
  {
  }

  /** Checking a hand that is already in the range, or unchecking one that is not, changes nothing. */
  lemma ToggleToCurrentState(range: set<string>, hand: string)
    ensures Toggled(range, hand, hand in range) == range
  {
  }

  /** load_range on the loaded list: `set(hands)` when the list is non-empty, the empty set otherwise. */
  function LoadedRange(hands: seq<string>): (r: set<string>)
    ensures forall h :: h in r <==> h in hands
  {
    if |hands| > 0 then Elems(hands) else {}
  }

  /** A grid name has no comma, so it survives the stored encoding. */
  lemma GridHandsCommaFree()
    ensures forall h :: h in GridHands() ==> ',' !in h
  {
    forall h | h in GridHands() ensures ',' !in h {
      var i, j :| 0 <= i < 13 && 0 <= j < 13 && h == HandName(i, j);
    }
  }

  /**
   * Saving the selected grid hands and loading the same position and type
   * brings the selection back, except that an empty selection comes back as
   * the one-element set of the empty name.
   */
  lemma SaveThenReloadRange(rows: seq<RangeRow>, position: string, rangeType: string,
                            range: set<string>, listed: seq<string>)
    requires UniqueKeys(rows)
    requires range <= GridHands()
    requires IsEnumeration(listed, range)
    ensures LoadedRange(Lookup(Upsert(rows, position, rangeType, Join(listed)), position, rangeType))
         == if range == {} then {""} else range
  {
    GridHandsCommaFree();
    SavedRangeReloads(rows, position, rangeType, range, listed);
  }

  /** init_ui's nested loop: one button per cell, row by row, labelled with the cell's hand. */
  method CreateButtonLabels(grid: seq<seq<string>>) returns (labels: seq<string>)
    ensures labels == Flatten(grid)
  {
    labels := [];
    var i := 0;
    while i < |grid|
      invariant 0 <= i <= |grid|
      invariant labels == Flatten(grid[..i])
    {
      var row := grid[i];
      var j := 0;
      while j < |row|
        invariant 0 <= j <= |row|
        invariant labels == Flatten(grid[..i]) + row[..j]
      {
        assert row[..j + 1] == row[..j] + [row[j]];
        labels := labels + [row[j]];
        j := j + 1;
      }
      assert row[..j] == row;
      assert grid[..i + 1][..i] == grid[..i];
      i := i + 1;
    }
    assert grid[..i] == grid;
  }

  /** `list(s)`: the elements of a set in the order its iteration takes. */
  method ListOfSet(s: set<string>) returns (listed: seq<string>)
    ensures IsEnumeration(listed, s)
  {
    listed := [];
    var rest := s;
    while rest != {}
      invariant rest <= s
      invariant IsEnumeration(listed, s - rest)
      decreases |rest|
    {
      var h :| h in rest;
      DistinctConcat(listed, [h]);
      listed := listed + [h];
      rest := rest - {h};
    }
  }

  class RangeSelector {
    var range: set<string>
    const handsGrid: seq<seq<string>>
    /** The text of each grid button, in the order the buttons were added to the grid layout. */
    const labels: seq<string>
    /** The checked flag of each grid button. */
    const buttons: array<bool>
    /** The value the percentage label shows. */
    var percentage: real
    /** The current indexes of the position and range type selectors. */
    var positionIndex: nat
    var rangeTypeIndex: nat
    /** The tabulated ranges get_hands_for_percentage reads. */
    const ranges: map<real, set<string>>
    const db: RangeTable

    /** The window's fixed structure: the grid, its buttons, valid selector indexes and a created table. */
    ghost predicate Shaped()
      reads this, db
    {
      handsGrid == HandsGrid() && labels == Flatten(HandsGrid()) && buttons.Length == |labels|
      && positionIndex < |Positions| && rangeTypeIndex < |RangeTypes|
      && db.Valid() && db.created
    }

    /** A grid button is checked exactly when its hand is in the range. */
    ghost predicate ButtonsMatchRange()
      reads this, buttons
    {
      buttons.Length == |labels| && forall k :: 0 <= k < |labels| ==> buttons[k] == (labels[k] in range)
    }

    ghost predicate Valid()
      reads this, buttons, db
    {
      Shaped() && ButtonsMatchRange() && percentage == Percentage(range)
    }

    function Position(): string
      reads this
      requires positionIndex < |Positions|
    {
      Positions[positionIndex]
    }

    function RangeType(): string
      reads this
      requires rangeTypeIndex < |RangeTypes|
    {
      RangeTypes[rangeTypeIndex]
    }

    /**
     * __init__: an empty range, the grid, unchecked buttons, the first
     * position and range type, then create_table and load_range.
     */
    constructor (db: RangeTable, ranges: map<real, set<string>>)
      requires db.Valid()
      modifies db
      ensures Valid()
      ensures this.db == db && this.ranges == ranges
      ensures positionIndex == 0 && rangeTypeIndex == 0
      ensures db.created && db.rows == old(db.rows)
      ensures range == LoadedRange(Lookup(db.rows, "UTG", "Open"))
    {
      range := {};
      var grid := GenerateHandsGrid();
      handsGrid := grid;
      var texts := CreateButtonLabels(grid);
      labels := texts;
      buttons := new bool[|texts|](_ => false);
      percentage := 0.0;
      positionIndex := 0;
      rangeTypeIndex := 0;
      this.ranges := ranges;
      this.db := db;
      new;
      db.CreateTable();
      LoadRange();
    }

    /** update_percentage: the label shows the share of combinations the range covers. */
    method UpdatePercentage()
      modifies this
      ensures percentage == Percentage(range)
      ensures range == old(range) && positionIndex == old(positionIndex) && rangeTypeIndex == old(rangeTypeIndex)
    {
      percentage := CalculatePercentage(range);
    }

    /** update_buttons: every grid button is checked exactly when its text is in the range. */
    method UpdateButtons()
      requires buttons.Length == |labels|
      modifies buttons
      ensures ButtonsMatchRange()
    {
      var k := 0;
      while k < buttons.Length
        invariant 0 <= k <= buttons.Length
        invariant forall k' :: 0 <= k' < k ==> buttons[k'] == (labels[k'] in range)
      {
        buttons[k] := labels[k] in range;
        k := k + 1;
      }
    }

    /** toggle_hand: adds or discards the hand, then refreshes the percentage; the buttons are left alone. */
    method ToggleHand(hand: string, checked: bool)
      modifies this
      ensures range == Toggled(old(range), hand, checked)
      ensures percentage == Percentage(range)
      ensures positionIndex == old(positionIndex) && rangeTypeIndex == old(rangeTypeIndex)
    {
      if checked {
        range := range + {hand};
      } else {
        range := range - {hand};
      }
      UpdatePercentage();
    }

    /** A click on grid button `k`: the button flips its checked flag and reports it to toggle_hand. */
    method ClickButton(k: nat)
      requires Valid()
      requires k < buttons.Length
      modifies this, buttons
      ensures Valid()
      ensures buttons[k] == !old(buttons[k])
      ensures range == Toggled(old(range), labels[k], buttons[k])
      ensures positionIndex == old(positionIndex) && rangeTypeIndex == old(rangeTypeIndex)
    {
      buttons[k] := !buttons[k];
      ToggleHand(labels[k], buttons[k]);
      FlatGridEnumeratesGrid();
      forall k' | 0 <= k' < |labels| ensures buttons[k'] == (labels[k'] in range) {
        if k' != k {
          assert labels[k'] != labels[k];
        }
      }
    }

    /**
     * apply_percentage. The entered text is given already parsed: `None`
     * stands for text `float` rejects. Either ValueError leaves the state as
     * it was; otherwise the range becomes the hands for that percentage and
     * the buttons and label follow.
     */
    method ApplyPercentage(entered: Option<real>)
      requires Valid()
      modifies this, buttons
      ensures Valid()
      ensures positionIndex == old(positionIndex) && rangeTypeIndex == old(rangeTypeIndex)
      ensures entered.None? ==> range == old(range)
      ensures entered.Some? && entered.value !in ranges && !HasBrackets(ranges, entered.value) ==> range == old(range)
      ensures entered.Some? && (entered.value in ranges || HasBrackets(ranges, entered.value)) ==>
        IsHandsForPercentage(ranges, entered.value, range)
      ensures (forall k :: k in ranges ==> ranges[k] <= GridHands()) && old(range) <= GridHands() ==>
        range <= GridHands() && 0.0 <= percentage <= 100.0
    {
      if old(range) <= GridHands() {
        GridPercentageBounds(range);
      }
      if entered.None? {
        return;
      }
      var hands := GetHandsForPercentage(ranges, entered.value);
      if hands.ValueError? {
        return;
      }
      range := hands.value;
      UpdateButtons();
      UpdatePercentage();
      if forall k :: k in ranges ==> ranges[k] <= GridHands() {
        HandsForPercentageWithin(ranges, entered.value, range, GridHands());
        GridPercentageBounds(range);
      }
    }

    /** load_range: the stored hands for the selected position and type become the range. */
    method LoadRange()
      requires Shaped()
      modifies this, buttons
      ensures Valid()
      ensures range == LoadedRange(Lookup(db.rows, Position(), RangeType()))
      ensures positionIndex == old(positionIndex) && rangeTypeIndex == old(rangeTypeIndex)
    {
      var hands := db.LoadRange(Positions[positionIndex], RangeTypes[rangeTypeIndex]);
      if |hands| > 0 {
        range := Elems(hands);
      } else {
        range := {};
      }
      UpdateButtons();
      UpdatePercentage();
    }

    /** save_range: the range, listed in its iteration order, is saved under the selected position and type. */
    method SaveRange()
      requires Valid()
      modifies db
      ensures Valid()
      ensures exists listed ::
        IsEnumeration(listed, range) && db.rows == Upsert(old(db.rows), Position(), RangeType(), Join(listed))
    {
      var listed := ListOfSet(range);
      db.SaveRange(Positions[positionIndex], RangeTypes[rangeTypeIndex], listed);
    }

    /** Choosing another position fires the selector's index-changed signal, which reloads the range. */
    method SelectPosition(index: nat)
      requires Valid()
      requires index < |Positions|
      modifies this, buttons
      ensures Valid()
      ensures positionIndex == index && rangeTypeIndex == old(rangeTypeIndex)
      ensures index != old(positionIndex) ==> range == LoadedRange(Lookup(db.rows, Position(), RangeType()))
      ensures index == old(positionIndex) ==> range == old(range)
    {
      if index != positionIndex {
        positionIndex := index;
        LoadRange();
      }
    }

    /** Choosing another range type reloads the range in the same way. */
    method SelectRangeType(index: nat)
      requires Valid()
      requires index < |RangeTypes|
      modifies this, buttons
      ensures Valid()
      ensures rangeTypeIndex == index && positionIndex == old(positionIndex)
      ensures index != old(rangeTypeIndex) ==> range == LoadedRange(Lookup(db.rows, Position(), RangeType()))
      ensures index == old(rangeTypeIndex) ==> range == old(range)
    {
      if index != rangeTypeIndex {
        rangeTypeIndex := index;
        LoadRange();
      }
    }
  }
}
