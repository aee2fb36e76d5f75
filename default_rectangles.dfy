/**
 * The default overlay layout. For every site, style and table number there
 * is one "table" rectangle at a random position and thirteen child
 * rectangles at random offsets inside it. The random numbers are inputs:
 * one position per table, drawn from [0, 300], and one offset per child,
 * drawn from [10, 100], consumed in the order the program draws them.
 */
module DefaultRectangles {
  import opened Enumerations
  import opened OverlayDatabase

  const Sites: seq<string> := ["Winamax", "PokerStars", "Unibet"]
  const Styles: seq<string> := ["Heads-Up", "5-Max", "6-Max", "9-Max", "Tournoi"]
  /** Table numbers run from 1 to this. */
  const TablesPerStyle: nat := 6

  const RectangleCategories: seq<string> := ["pseudo", "carte", "action", "BB", "flop_turn_river"]
  const DefaultParentWidth: int := 800
  const DefaultParentHeight: int := 600
  const DefaultChildSizes: map<string, (int, int)> := map[
    "pseudo" := (150, 50),
    "carte" := (100, 150),
    "action" := (100, 50),
    "BB" := (80, 40),
    "flop_turn_river" := (100, 100)
  ]

  /** How many children of a category each table gets. */
  function CategoryCount(category: string): nat
  {
    if category != "flop_turn_river" then 2 else 5
  }

  /** The same sizes and counts by category position, as the lemmas use them. */
  const ChildSizes: seq<(int, int)> := [(150, 50), (100, 150), (100, 50), (80, 40), (100, 100)]

  function CopiesOf(ci: nat): nat
  {
    if ci < 4 then 2 else 5
  }

  /** Category `ci` has `CopiesOf(ci)` children of size `ChildSizes[ci]`. */
  lemma CategoryAt(ci: nat)
    requires ci < |RectangleCategories|
    ensures CategoryCount(RectangleCategories[ci]) == CopiesOf(ci)
    ensures RectangleCategories[ci] in DefaultChildSizes && DefaultChildSizes[RectangleCategories[ci]] == ChildSizes[ci]
  {
    assert RectangleCategories[ci] != "flop_turn_river" <==> ci < 4;
  }

  /** Tables, children per table, rows per table, rows in all, and child offsets drawn in all. */
  const TableCount: nat := 90
  const ChildrenPerTable: nat := 13
  const RowsPerTable: nat := 14
  const RowCount: nat := 1260
  const ChildCount: nat := 1170

  /** The counts follow from the three loops: one parent and thirteen children per site, style and table number. */
  lemma LayoutCounts()
    ensures TableCount == |Sites| * |Styles| * TablesPerStyle
    ensures RowsPerTable == 1 + ChildrenPerTable
    ensures RowCount == TableCount * RowsPerTable && ChildCount == TableCount * ChildrenPerTable
  {
  }

  /** `str(n)`. */
  function Decimal(n: nat): string
  {
    if n < 10 then ["0123456789"[n]] else Decimal(n / 10) + ["0123456789"[n % 10]]
  }

  /** The label of the `i`-th child (from 0) of a category. */
  function ChildLabel(category: string, i: nat): string
  {
    category + "_" + Decimal(i + 1)
  }

  // ---------------------------------------------------------------------------
  // One table's rows
  // ---------------------------------------------------------------------------

  /**
   * The table at site `si`, style `st`, number `t + 1` is the
   * `TableIndex(si, st, t)`-th the loops reach (from 0): the index of its
   * drawn position, and 13 times the index of its first drawn offset.
   */
  function TableIndex(si: nat, st: nat, t: nat): nat
  {
    (si * 5 + st) * 6 + t
  }

  /** Slot 1 to 13 of a table's rows is a child: its category and which copy of it. */
  function CategoryIndexOf(slot: nat): nat
    requires 1 <= slot < RowsPerTable
  {
    if slot <= 8 then (slot - 1) / 2 else 4
  }

  function CopyOf(slot: nat): nat
    requires 1 <= slot < RowsPerTable
  {
    if slot <= 8 then (slot - 1) % 2 else slot - 9
  }

  /** The label in slot `slot` of every table: "table" first, then the children. */
  function SlotLabel(slot: nat): string
    requires slot < RowsPerTable
  {
    if slot == 0 then "table" else ChildLabel(RectangleCategories[CategoryIndexOf(slot)], CopyOf(slot))
  }

  /** How many children the categories before `ci` have in all. */
  function ChildrenBefore(ci: nat): nat
  {
    if ci <= 4 then 2 * ci else ChildrenPerTable
  }

  /** The `i`-th child of category `ci` sits in slot `1 + 2 * ci + i` and carries that category's label. */
  lemma ChildSlot(ci: nat, i: nat)
    requires ci < |RectangleCategories| && i < CopiesOf(ci)
    ensures ChildrenBefore(ci) == 2 * ci
    ensures 1 <= 1 + ChildrenBefore(ci) + i < RowsPerTable
    ensures CategoryIndexOf(1 + ChildrenBefore(ci) + i) == ci && CopyOf(1 + ChildrenBefore(ci) + i) == i
    ensures SlotLabel(1 + ChildrenBefore(ci) + i) == ChildLabel(RectangleCategories[ci], i)
  {
    assert 1 + ChildrenBefore(ci) + i == 1 + 2 * ci + i;
  }

  /** The random draws have the shape and bounds `randint` gives them. */
  predicate ValidDraws(parents: seq<(int, int)>, children: seq<(int, int)>)
  {
    |parents| == TableCount && |children| == ChildCount
    && (forall g :: 0 <= g < |parents| ==> 0 <= parents[g].0 <= 300 && 0 <= parents[g].1 <= 300)
    && (forall c :: 0 <= c < |children| ==> 10 <= children[c].0 <= 100 && 10 <= children[c].1 <= 100)
  }

  /** The geometry in slot `slot` of table `g`: the drawn position for the parent, the drawn offset and the category's size for a child. */
  function SlotRect(parents: seq<(int, int)>, children: seq<(int, int)>, g: nat, slot: nat): Rect
    requires ValidDraws(parents, children)
    requires g < TableCount && slot < RowsPerTable
  {
    var (px, py) := parents[g];
    if slot == 0 then Rect(px, py, DefaultParentWidth, DefaultParentHeight)
    else
      var (rx, ry) := children[13 * g + slot - 1];
      var (w, h) := ChildSizes[CategoryIndexOf(slot)];
      Rect(px + rx, py + ry, w, h)
  }

  /** A child's geometry: the table's drawn position plus the child's drawn offset, at its category's size. */
  lemma ChildRectAt(parents: seq<(int, int)>, children: seq<(int, int)>, g: nat, slot: nat)
    requires ValidDraws(parents, children)
    requires g < TableCount && 1 <= slot < RowsPerTable
    ensures 13 * g + slot - 1 < |children|
    ensures var c := 13 * g + slot - 1;
      var size := ChildSizes[CategoryIndexOf(slot)];
      SlotRect(parents, children, g, slot) == Rect(parents[g].0 + children[c].0, parents[g].1 + children[c].1, size.0, size.1)
  {
  }

  /** Slot `slot` of the table at site `si`, style `st`, number `t + 1`. */
  function TableRow(parents: seq<(int, int)>, children: seq<(int, int)>, si: nat, st: nat, t: nat, slot: nat): OverlayRow
    requires ValidDraws(parents, children)
    requires si < |Sites| && st < |Styles| && t < TablesPerStyle && slot < RowsPerTable
  {
    OverlayRow(t + 1, Sites[si], Styles[st], SlotLabel(slot), SlotRect(parents, children, TableIndex(si, st, t), slot))
  }

  /** The rows one table contributes: its parent, then its thirteen children. */
  function TableBlock(parents: seq<(int, int)>, children: seq<(int, int)>, si: nat, st: nat, t: nat): (block: seq<OverlayRow>)
    requires ValidDraws(parents, children)
    requires si < |Sites| && st < |Styles| && t < TablesPerStyle
    ensures |block| == RowsPerTable
  {
    seq(RowsPerTable, slot requires 0 <= slot < RowsPerTable => TableRow(parents, children, si, st, t, slot))
  }

  // ---------------------------------------------------------------------------
  // The whole table, in the order of the three loops
  // ---------------------------------------------------------------------------

  /** The tables of one style at one site, by table number. */
  function StyleBlocks(parents: seq<(int, int)>, children: seq<(int, int)>, si: nat, st: nat): (blocks: seq<seq<OverlayRow>>)
    requires ValidDraws(parents, children)
    requires si < |Sites| && st < |Styles|
    ensures |blocks| == TablesPerStyle && forall t :: 0 <= t < |blocks| ==> |blocks[t]| == RowsPerTable
  {
    seq(TablesPerStyle, t requires 0 <= t < TablesPerStyle => TableBlock(parents, children, si, st, t))
  }

  function StyleRows(parents: seq<(int, int)>, children: seq<(int, int)>, si: nat, st: nat): (rows: seq<OverlayRow>)
    requires ValidDraws(parents, children)
    requires si < |Sites| && st < |Styles|
    ensures |rows| == TablesPerStyle * RowsPerTable
  {
    FlattenLength(StyleBlocks(parents, children, si, st), RowsPerTable);
    Flatten(StyleBlocks(parents, children, si, st))
  }

  /** The styles of one site, in order. */
  function SiteBlocks(parents: seq<(int, int)>, children: seq<(int, int)>, si: nat): (blocks: seq<seq<OverlayRow>>)
    requires ValidDraws(parents, children)
    requires si < |Sites|
    ensures |blocks| == |Styles| && forall st :: 0 <= st < |blocks| ==> |blocks[st]| == TablesPerStyle * RowsPerTable
  {
    seq(|Styles|, st requires 0 <= st < |Styles| => StyleRows(parents, children, si, st))
  }

  function SiteRows(parents: seq<(int, int)>, children: seq<(int, int)>, si: nat): (rows: seq<OverlayRow>)
    requires ValidDraws(parents, children)
    requires si < |Sites|
    ensures |rows| == |Styles| * (TablesPerStyle * RowsPerTable)
  {
    FlattenLength(SiteBlocks(parents, children, si), TablesPerStyle * RowsPerTable);
    Flatten(SiteBlocks(parents, children, si))
  }

  /** The sites, in order. */
  function LayoutBlocks(parents: seq<(int, int)>, children: seq<(int, int)>): (blocks: seq<seq<OverlayRow>>)
    requires ValidDraws(parents, children)
    ensures |blocks| == |Sites| && forall si :: 0 <= si < |blocks| ==> |blocks[si]| == |Styles| * (TablesPerStyle * RowsPerTable)
  {
    seq(|Sites|, si requires 0 <= si < |Sites| => SiteRows(parents, children, si))
  }

  /** The whole initialised table. */
  function DefaultRows(parents: seq<(int, int)>, children: seq<(int, int)>): (rows: seq<OverlayRow>)
    requires ValidDraws(parents, children)
    ensures |rows| == RowCount
  {
    FlattenLength(LayoutBlocks(parents, children), |Styles| * (TablesPerStyle * RowsPerTable));
    Flatten(LayoutBlocks(parents, children))
  }

  /** Row `14 * TableIndex(si, st, t) + slot` of the initialised table is slot `slot` of that table. */
  lemma RowIndex(parents: seq<(int, int)>, children: seq<(int, int)>, si: nat, st: nat, t: nat, slot: nat)
    requires ValidDraws(parents, children)
    requires si < |Sites| && st < |Styles| && t < TablesPerStyle && slot < RowsPerTable
    ensures 14 * TableIndex(si, st, t) + slot < RowCount
    ensures DefaultRows(parents, children)[14 * TableIndex(si, st, t) + slot] == TableRow(parents, children, si, st, t, slot)
  {
    var inStyle := 14 * t + slot;
    FlattenUniform(StyleBlocks(parents, children, si, st), 14, t, slot);
    var inSite := 84 * st + inStyle;
    FlattenUniform(SiteBlocks(parents, children, si), 84, st, inStyle);
    FlattenUniform(LayoutBlocks(parents, children), 420, si, inSite);
    assert 14 * TableIndex(si, st, t) + slot == 420 * si + inSite;
  }

  /** The tables are numbered in loop order: every table index below 90 belongs to exactly one site, style and number. */
  lemma TableOrder(g: nat)
    requires g < TableCount
    ensures g / 30 < |Sites| && g / 6 % 5 < |Styles| && g % 6 < TablesPerStyle
    ensures TableIndex(g / 30, g / 6 % 5, g % 6) == g
  {
  }

  lemma TableIndexInjective(si: nat, st: nat, t: nat, si': nat, st': nat, t': nat)
    requires si < |Sites| && st < |Styles| && t < TablesPerStyle
    requires si' < |Sites| && st' < |Styles| && t' < TablesPerStyle
    requires TableIndex(si, st, t) == TableIndex(si', st', t')
    ensures si == si' && st == st' && t == t'
  {
  }

  // ---------------------------------------------------------------------------
  // The initialiser
  // ---------------------------------------------------------------------------

  /** The rows the loops have inserted when they reach table `t + 1` of style `st` at site `si`. */
  ghost function RowsBefore(parents: seq<(int, int)>, children: seq<(int, int)>, si: nat, st: nat, t: nat): seq<OverlayRow>
    requires ValidDraws(parents, children)
    requires si < |Sites| && st < |Styles| && t <= TablesPerStyle
  {
    Flatten(LayoutBlocks(parents, children)[..si]) + Flatten(SiteBlocks(parents, children, si)[..st])
    + Flatten(StyleBlocks(parents, children, si, st)[..t])
  }

  /** The parent row the loops insert is slot 0 of its table. */
  lemma ParentInserted(parents: seq<(int, int)>, children: seq<(int, int)>, si: nat, st: nat, t: nat)
    requires ValidDraws(parents, children)
    requires si < |Sites| && st < |Styles| && t < TablesPerStyle
    ensures var g := TableIndex(si, st, t);
      g < |parents| && TableBlock(parents, children, si, st, t)[0]
      == OverlayRow(t + 1, Sites[si], Styles[st], "table", Rect(parents[g].0, parents[g].1, DefaultParentWidth, DefaultParentHeight))
  {
  }

  /** The `i`-th child of category `ci` the loops insert, from the offset they draw, is its slot of the table. */
  lemma ChildInserted(parents: seq<(int, int)>, children: seq<(int, int)>, si: nat, st: nat, t: nat, ci: nat, i: nat)
    requires ValidDraws(parents, children)
    requires si < |Sites| && st < |Styles| && t < TablesPerStyle
    requires ci < |RectangleCategories| && i < CopiesOf(ci)
    ensures var g := TableIndex(si, st, t);
      var c := 13 * g + (1 + ChildrenBefore(ci) + i) - 1;
      g < |parents| && c < |children| && 1 + ChildrenBefore(ci) + i < RowsPerTable
      && TableBlock(parents, children, si, st, t)[1 + ChildrenBefore(ci) + i]
         == OverlayRow(t + 1, Sites[si], Styles[st], ChildLabel(RectangleCategories[ci], i),
                       Rect(parents[g].0 + children[c].0, parents[g].1 + children[c].1, ChildSizes[ci].0, ChildSizes[ci].1))
  {
    ChildSlot(ci, i);
    ChildRectAt(parents, children, TableIndex(si, st, t), 1 + ChildrenBefore(ci) + i);
  }

  /** Appending that child extends the rows of the table by one slot. */
  lemma ChildAppended(parents: seq<(int, int)>, children: seq<(int, int)>, head: seq<OverlayRow>, rows: seq<OverlayRow>,
                      child: OverlayRow, si: nat, st: nat, t: nat, ci: nat, i: nat)
    requires ValidDraws(parents, children)
    requires si < |Sites| && st < |Styles| && t < TablesPerStyle
    requires ci < |RectangleCategories| && i < CopiesOf(ci)
    requires 1 + ChildrenBefore(ci) + i < RowsPerTable
    requires rows == head + TableBlock(parents, children, si, st, t)[..1 + ChildrenBefore(ci) + i]
    requires var g := TableIndex(si, st, t);
      var c := 13 * g + ChildrenBefore(ci) + i;
      g < |parents| && c < |children|
      && child == OverlayRow(t + 1, Sites[si], Styles[st], ChildLabel(RectangleCategories[ci], i),
                             Rect(parents[g].0 + children[c].0, parents[g].1 + children[c].1, ChildSizes[ci].0, ChildSizes[ci].1))
    ensures rows + [child] == head + TableBlock(parents, children, si, st, t)[..1 + ChildrenBefore(ci) + i + 1]
  {
    ChildInserted(parents, children, si, st, t, ci, i);
    PrefixStep(head, TableBlock(parents, children, si, st, t), 1 + ChildrenBefore(ci) + i);
  }

  /** A finished table extends the rows inserted before it to those before the next table. */
  lemma NextTable(parents: seq<(int, int)>, children: seq<(int, int)>, si: nat, st: nat, t: nat)
    requires ValidDraws(parents, children)
    requires si < |Sites| && st < |Styles| && t < TablesPerStyle
    ensures RowsBefore(parents, children, si, st, t) + TableBlock(parents, children, si, st, t)
            == RowsBefore(parents, children, si, st, t + 1)
  {
    var head := Flatten(LayoutBlocks(parents, children)[..si]) + Flatten(SiteBlocks(parents, children, si)[..st]);
    var blocks := StyleBlocks(parents, children, si, st);
    FlattenStep(blocks, t);
    AppendAssoc(head, Flatten(blocks[..t]), blocks[t]);
  }

  /** A finished style: the rows inserted before the style's first table, extended by the whole style. */
  lemma NextStyle(parents: seq<(int, int)>, children: seq<(int, int)>, si: nat, st: nat)
    requires ValidDraws(parents, children)
    requires si < |Sites| && st < |Styles|
    ensures RowsBefore(parents, children, si, st, TablesPerStyle)
            == Flatten(LayoutBlocks(parents, children)[..si]) + Flatten(SiteBlocks(parents, children, si)[..st + 1])
  {
    var blocks := SiteBlocks(parents, children, si);
    var tables := StyleBlocks(parents, children, si, st);
    assert tables[..TablesPerStyle] == tables;
    FlattenStep(blocks, st);
    AppendAssoc(Flatten(LayoutBlocks(parents, children)[..si]), Flatten(blocks[..st]), blocks[st]);
  }

  /** A finished site. */
  lemma NextSite(parents: seq<(int, int)>, children: seq<(int, int)>, si: nat)
    requires ValidDraws(parents, children)
    requires si < |Sites|
    ensures Flatten(LayoutBlocks(parents, children)[..si]) + Flatten(SiteBlocks(parents, children, si)[..|Styles|])
            == Flatten(LayoutBlocks(parents, children)[..si + 1])
  {
    var blocks := LayoutBlocks(parents, children);
    var styles := SiteBlocks(parents, children, si);
    assert styles[..|Styles|] == styles;
    FlattenStep(blocks, si);
  }

  /**
   * The children of one category in one table (the copy loop): appended
   * after the rows of the categories before it, with offsets drawn from
   * `nextChild` on.
   */
  method InsertCategory(parents: seq<(int, int)>, children: seq<(int, int)>, rows: seq<OverlayRow>, ghost head: seq<OverlayRow>,
                        si: nat, st: nat, t: nat, ci: nat, parentX: int, parentY: int, nextChild: nat)
    returns (extended: seq<OverlayRow>, drawn: nat)
    requires ValidDraws(parents, children)
    requires si < |Sites| && st < |Styles| && t < TablesPerStyle && ci < |RectangleCategories|
    requires var g := TableIndex(si, st, t);
      g < |parents| && parentX == parents[g].0 && parentY == parents[g].1
      && nextChild == 13 * g + ChildrenBefore(ci)
      && rows == head + TableBlock(parents, children, si, st, t)[..1 + ChildrenBefore(ci)]
    ensures var g := TableIndex(si, st, t);
      drawn == 13 * g + ChildrenBefore(ci + 1)
      && extended == head + TableBlock(parents, children, si, st, t)[..1 + ChildrenBefore(ci + 1)]
  {
    ghost var g := TableIndex(si, st, t);
    ghost var block := TableBlock(parents, children, si, st, t);
    var category := RectangleCategories[ci];
    var count := if category != "flop_turn_river" then 2 else 5;
    CategoryAt(ci);
    extended, drawn := rows, nextChild;
    var i := 0;
    while i < count
      invariant 0 <= i <= count
      invariant drawn == 13 * g + ChildrenBefore(ci) + i
      invariant extended == head + block[..1 + ChildrenBefore(ci) + i]
    {
      ChildSlot(ci, i);
      var (relX, relY) := children[drawn];
      var (width, height) := DefaultChildSizes[category];
      var x, y := parentX + relX, parentY + relY;
      var name := ChildLabel(category, i);
      var child := OverlayRow(t + 1, Sites[si], Styles[st], name, Rect(x, y, width, height));
      ChildAppended(parents, children, head, extended, child, si, st, t, ci, i);
      extended := extended + [child];
      drawn := drawn + 1;
      i := i + 1;
    }
    assert ChildrenBefore(ci) + count == ChildrenBefore(ci + 1);
  }

  /** The child rectangles of one table (the category loop): appended after the table's parent row. */
  method InsertChildren(parents: seq<(int, int)>, children: seq<(int, int)>, rows: seq<OverlayRow>, ghost head: seq<OverlayRow>,
                        si: nat, st: nat, t: nat, parentX: int, parentY: int, nextChild: nat)
    returns (extended: seq<OverlayRow>, drawn: nat)
    requires ValidDraws(parents, children)
    requires si < |Sites| && st < |Styles| && t < TablesPerStyle
    requires var g := TableIndex(si, st, t);
      g < |parents| && parentX == parents[g].0 && parentY == parents[g].1
      && nextChild == 13 * g && rows == head + TableBlock(parents, children, si, st, t)[..1]
    ensures extended == head + TableBlock(parents, children, si, st, t) && drawn == nextChild + ChildrenPerTable
  {
    extended, drawn := rows, nextChild;
    var ci := 0;
    while ci < |RectangleCategories|
      invariant 0 <= ci <= |RectangleCategories|
      invariant drawn == 13 * TableIndex(si, st, t) + ChildrenBefore(ci)
      invariant extended == head + TableBlock(parents, children, si, st, t)[..1 + ChildrenBefore(ci)]
    {
      extended, drawn := InsertCategory(parents, children, extended, head, si, st, t, ci, parentX, parentY, drawn);
      ci := ci + 1;
    }
    assert TableBlock(parents, children, si, st, t)[..RowsPerTable] == TableBlock(parents, children, si, st, t);
  }

  /**
   * initialize_default_rectangles: empties the rectangle table, then inserts
   * one parent and its children per site, style and table number, in one
   * transaction; the preferences are not touched.
   */
  method InitializeDefaultRectangles(store: OverlayStore, parents: seq<(int, int)>, children: seq<(int, int)>)
    requires ValidDraws(parents, children)
    modifies store
    ensures store.rects == DefaultRows(parents, children)
    ensures store.prefs == old(store.prefs)
  {
    var rows: seq<OverlayRow> := [];
    var nextParent, nextChild := 0, 0;
    var si := 0;
    while si < |Sites|
      invariant 0 <= si <= |Sites|
      invariant nextParent == 30 * si && nextChild == 13 * nextParent
      invariant rows == Flatten(LayoutBlocks(parents, children)[..si])
      invariant store.prefs == old(store.prefs)
    {
      var st := 0;
      while st < |Styles|
        invariant 0 <= st <= |Styles|
        invariant nextParent == TableIndex(si, st, 0) && nextChild == 13 * nextParent
        invariant rows == Flatten(LayoutBlocks(parents, children)[..si]) + Flatten(SiteBlocks(parents, children, si)[..st])
        invariant store.prefs == old(store.prefs)
      {
        var t := 0;
        while t < TablesPerStyle
          invariant 0 <= t <= TablesPerStyle
          invariant nextParent == TableIndex(si, st, t) && nextChild == 13 * nextParent
          invariant rows == RowsBefore(parents, children, si, st, t)
          invariant store.prefs == old(store.prefs)
        {
          ghost var head := rows;
          ParentInserted(parents, children, si, st, t);
          var (parentX, parentY) := parents[nextParent];
          nextParent := nextParent + 1;
          var parent := OverlayRow(t + 1, Sites[si], Styles[st], "table",
                                   Rect(parentX, parentY, DefaultParentWidth, DefaultParentHeight));
          PrefixStep(head, TableBlock(parents, children, si, st, t), 0);
          rows := rows + [parent];
          rows, nextChild := InsertChildren(parents, children, rows, head, si, st, t, parentX, parentY, nextChild);
          NextTable(parents, children, si, st, t);
          t := t + 1;
        }
        NextStyle(parents, children, si, st);
        st := st + 1;
      }
      NextSite(parents, children, si);
      si := si + 1;
    }
    assert LayoutBlocks(parents, children)[..|Sites|] == LayoutBlocks(parents, children);
    store.rects := rows;
  }

  // ---------------------------------------------------------------------------
  // The shape of the initialised table
  // ---------------------------------------------------------------------------

  /** Every table's rows carry these labels, in this order. */
  const ExpectedLabels: seq<string> := [
    "table",
    "pseudo_1", "pseudo_2", "carte_1", "carte_2", "action_1", "action_2", "BB_1", "BB_2",
    "flop_turn_river_1", "flop_turn_river_2", "flop_turn_river_3", "flop_turn_river_4", "flop_turn_river_5"
  ]

  lemma SlotLabels()
    ensures forall slot :: 0 <= slot < RowsPerTable ==> SlotLabel(slot) == ExpectedLabels[slot]
  {
    forall slot | 0 <= slot < RowsPerTable ensures SlotLabel(slot) == ExpectedLabels[slot] {
      if slot == 0 {
      } else if slot < 5 {
        PlayerLabels(slot);
      } else if slot < 9 {
        ActionLabels(slot);
      } else {
        BoardLabels(slot);
      }
    }
  }

  lemma PlayerLabels(slot: nat)
    requires 1 <= slot < 5
    ensures SlotLabel(slot) == ExpectedLabels[slot]
  {
    if slot == 1 {
      assert SlotLabel(1) == "pseudo" + "_" + "1";
    } else if slot == 2 {
      assert SlotLabel(2) == "pseudo" + "_" + "2";
    } else if slot == 3 {
      assert SlotLabel(3) == "carte" + "_" + "1";
    } else {
      assert SlotLabel(4) == "carte" + "_" + "2";
    }
  }

  lemma ActionLabels(slot: nat)
    requires 5 <= slot < 9
    ensures SlotLabel(slot) == ExpectedLabels[slot]
  {
    if slot == 5 {
      assert SlotLabel(5) == "action" + "_" + "1";
    } else if slot == 6 {
      assert SlotLabel(6) == "action" + "_" + "2";
    } else if slot == 7 {
      assert SlotLabel(7) == "BB" + "_" + "1";
    } else {
      assert SlotLabel(8) == "BB" + "_" + "2";
    }
  }

  lemma BoardLabels(slot: nat)
    requires 9 <= slot < 14
    ensures SlotLabel(slot) == ExpectedLabels[slot]
  {
    if slot == 9 {
      assert SlotLabel(9) == "flop_turn_river" + "_" + "1";
    } else if slot == 10 {
      assert SlotLabel(10) == "flop_turn_river" + "_" + "2";
    } else if slot == 11 {
      assert SlotLabel(11) == "flop_turn_river" + "_" + "3";
    } else if slot == 12 {
      assert SlotLabel(12) == "flop_turn_river" + "_" + "4";
    } else {
      assert SlotLabel(13) == "flop_turn_river" + "_" + "5";
    }
  }

  /** `row` belongs to the table at site `si`, style `st`, number `t + 1`, and is labelled `name`. */
  predicate RowOfTable(row: OverlayRow, si: nat, st: nat, t: nat, name: string)
    requires si < |Sites| && st < |Styles|
  {
    row.site == Sites[si] && row.style == Styles[st] && row.tableId == t + 1 && row.name == name
  }

  /** Row `slot` of the table at site `si`, style `st`, number `t + 1`. */
  lemma TableRowAt(parents: seq<(int, int)>, children: seq<(int, int)>, si: nat, st: nat, t: nat, slot: nat)
    requires ValidDraws(parents, children)
    requires si < |Sites| && st < |Styles| && t < TablesPerStyle && slot < RowsPerTable
    ensures 14 * TableIndex(si, st, t) + slot < RowCount
    ensures RowOfTable(DefaultRows(parents, children)[14 * TableIndex(si, st, t) + slot], si, st, t, SlotLabel(slot))
  {
    RowIndex(parents, children, si, st, t, slot);
  }

  /** The rows of a table are fourteen consecutive rows: same site, style and number, labels as expected. */
  lemma TableRows(parents: seq<(int, int)>, children: seq<(int, int)>, si: nat, st: nat, t: nat)
    requires ValidDraws(parents, children)
    requires si < |Sites| && st < |Styles| && t < TablesPerStyle
    ensures 14 * TableIndex(si, st, t) + 13 < RowCount
    ensures forall slot :: 0 <= slot < RowsPerTable ==>
      RowOfTable(DefaultRows(parents, children)[14 * TableIndex(si, st, t) + slot], si, st, t, ExpectedLabels[slot])
  {
    SlotLabels();
    forall slot | 0 <= slot < RowsPerTable
      ensures RowOfTable(DefaultRows(parents, children)[14 * TableIndex(si, st, t) + slot], si, st, t, ExpectedLabels[slot])
    {
      TableRowAt(parents, children, si, st, t, slot);
    }
  }

  /** Every row of the initialised table is some slot of some table. */
  lemma EveryRowPlaced(parents: seq<(int, int)>, children: seq<(int, int)>, n: nat)
    requires ValidDraws(parents, children)
    requires n < RowCount
    ensures var g := n / 14;
      g / 30 < |Sites| && g / 6 % 5 < |Styles| && g % 6 < TablesPerStyle && n % 14 < RowsPerTable
      && DefaultRows(parents, children)[n] == TableRow(parents, children, g / 30, g / 6 % 5, g % 6, n % 14)
  {
    var g := n / 14;
    TableOrder(g);
    RowIndex(parents, children, g / 30, g / 6 % 5, g % 6, n % 14);
  }

  /** Labels are unique within a table: no two slots carry the same label. */
  lemma LabelsUniqueWithinTable()
    ensures Distinct(ExpectedLabels)
    ensures forall a, b :: 0 <= a < b < RowsPerTable ==> SlotLabel(a) != SlotLabel(b)
  {
    ExpectedLabelsDistinct();
    SlotLabels();
  }

  lemma ExpectedLabelsDistinct()
    ensures forall a, b :: 0 <= a < b < |ExpectedLabels| ==> ExpectedLabels[a] != ExpectedLabels[b]
  {
  }

  /** A table's first row is its parent: 800x600 at a drawn position in [0, 300]. */
  lemma ParentRow(parents: seq<(int, int)>, children: seq<(int, int)>, si: nat, st: nat, t: nat)
    requires ValidDraws(parents, children)
    requires si < |Sites| && st < |Styles| && t < TablesPerStyle
    ensures var g := TableIndex(si, st, t);
      g < |parents| && 14 * g < RowCount
      && var row := DefaultRows(parents, children)[14 * g];
      row.name == "table" && row.rect == Rect(parents[g].0, parents[g].1, DefaultParentWidth, DefaultParentHeight)
      && 0 <= row.rect.x <= 300 && 0 <= row.rect.y <= 300
  {
    RowIndex(parents, children, si, st, t, 0);
  }

  /**
   * A child lies 10 to 100 to the right of and below its parent and has its
   * category's default size; no child is labelled "table".
   */
  lemma ChildRow(parents: seq<(int, int)>, children: seq<(int, int)>, si: nat, st: nat, t: nat, slot: nat)
    requires ValidDraws(parents, children)
    requires si < |Sites| && st < |Styles| && t < TablesPerStyle && 1 <= slot < RowsPerTable
    ensures 14 * TableIndex(si, st, t) + slot < RowCount
    ensures var rows := DefaultRows(parents, children);
      var parent, child := rows[14 * TableIndex(si, st, t)], rows[14 * TableIndex(si, st, t) + slot];
      var category := RectangleCategories[CategoryIndexOf(slot)];
      category in DefaultChildSizes
      && parent.rect.x + 10 <= child.rect.x <= parent.rect.x + 100
      && parent.rect.y + 10 <= child.rect.y <= parent.rect.y + 100
      && (child.rect.width, child.rect.height) == DefaultChildSizes[category]
      && child.name == ChildLabel(category, CopyOf(slot)) && child.name != "table"
  {
    var g := TableIndex(si, st, t);
    RowIndex(parents, children, si, st, t, 0);
    RowIndex(parents, children, si, st, t, slot);
    ChildRectAt(parents, children, g, slot);
    CategoryAt(CategoryIndexOf(slot));
    SlotLabels();
  }

  /** Each category has as many children per table as its count says: 2, or 5 for flop_turn_river. */
  lemma ChildrenPerCategory()
    ensures forall ci :: 0 <= ci < |RectangleCategories| ==>
      |set slot | 1 <= slot < RowsPerTable && CategoryIndexOf(slot) == ci| == CategoryCount(RectangleCategories[ci])
    ensures ChildrenPerTable == CategoryCount("pseudo") + CategoryCount("carte") + CategoryCount("action")
      + CategoryCount("BB") + CategoryCount("flop_turn_river")
  {
    forall ci | 0 <= ci < |RectangleCategories|
      ensures |set slot | 1 <= slot < RowsPerTable && CategoryIndexOf(slot) == ci| == CategoryCount(RectangleCategories[ci])
    {
      var slots := set slot | 1 <= slot < RowsPerTable && CategoryIndexOf(slot) == ci;
      CategoryAt(ci);
      if ci < 4 {
        assert slots == {1 + 2 * ci, 2 + 2 * ci};
      } else {
        assert slots == {9, 10, 11, 12, 13};
      }
    }
  }

  /** The rows of a table carry pairwise different labels. */
  lemma TableRowNamesDistinct(parents: seq<(int, int)>, children: seq<(int, int)>, si: nat, st: nat, t: nat)
    requires ValidDraws(parents, children)
    requires si < |Sites| && st < |Styles| && t < TablesPerStyle
    ensures 14 * TableIndex(si, st, t) + RowsPerTable <= RowCount
    ensures var table := DefaultRows(parents, children)[14 * TableIndex(si, st, t)..14 * TableIndex(si, st, t) + RowsPerTable];
      forall a, b :: 0 <= a < b < |table| ==> table[a].name != table[b].name
  {
    var start := 14 * TableIndex(si, st, t);
    var table := DefaultRows(parents, children)[start..start + RowsPerTable];
    ExpectedLabelsDistinct();
    TableRows(parents, children, si, st, t);
    forall a | 0 <= a < |table| ensures table[a].name == ExpectedLabels[a] {
      assert table[a] == DefaultRows(parents, children)[start + a];
    }
  }

  // ---------------------------------------------------------------------------
  // Fetching one table of the initialised layout
  // ---------------------------------------------------------------------------

  lemma SitesAndStylesDistinct()
    ensures Distinct(Sites) && Distinct(Styles)
  {
  }

  /** What a fetch of one table returns: its fourteen rows' labels and geometry, in slot order. */
  function TableFetched(parents: seq<(int, int)>, children: seq<(int, int)>, si: nat, st: nat, t: nat): (fetched: seq<LabelledRect>)
    requires ValidDraws(parents, children)
    requires si < |Sites| && st < |Styles| && t < TablesPerStyle
    ensures |fetched| == RowsPerTable
  {
    seq(RowsPerTable, slot requires 0 <= slot < RowsPerTable => Projected(TableRow(parents, children, si, st, t, slot)))
  }

  /** Every row of a table's block carries that table's site, style and number. */
  lemma TableBlockTags(parents: seq<(int, int)>, children: seq<(int, int)>, si: nat, st: nat, t: nat)
    requires ValidDraws(parents, children)
    requires si < |Sites| && st < |Styles| && t < TablesPerStyle
    ensures var block := TableBlock(parents, children, si, st, t);
      forall i :: 0 <= i < |block| ==> block[i].site == Sites[si] && block[i].style == Styles[st] && block[i].tableId == t + 1
  {
  }

  /** Fetching a table's own block gives all its rows. */
  lemma OwnTableFetch(parents: seq<(int, int)>, children: seq<(int, int)>, si: nat, st: nat, t: nat)
    requires ValidDraws(parents, children)
    requires si < |Sites| && st < |Styles| && t < TablesPerStyle
    ensures Fetch(TableBlock(parents, children, si, st, t), Sites[si], Styles[st], t + 1) == TableFetched(parents, children, si, st, t)
  {
    var block := TableBlock(parents, children, si, st, t);
    TableBlockTags(parents, children, si, st, t);
    FetchAll(block, Sites[si], Styles[st], t + 1);
    assert seq(|block|, i requires 0 <= i < |block| => Projected(block[i])) == TableFetched(parents, children, si, st, t);
  }

  /** Fetching another table's block gives nothing. */
  lemma OtherTableFetch(parents: seq<(int, int)>, children: seq<(int, int)>, si': nat, st': nat, t': nat, si: nat, st: nat, t: nat)
    requires ValidDraws(parents, children)
    requires si' < |Sites| && st' < |Styles| && t' < TablesPerStyle
    requires si < |Sites| && st < |Styles| && t < TablesPerStyle
    requires si' != si || st' != st || t' != t
    ensures Fetch(TableBlock(parents, children, si', st', t'), Sites[si], Styles[st], t + 1) == []
  {
    TableBlockTags(parents, children, si', st', t');
    SitesAndStylesDistinct();
    assert Sites[si'] != Sites[si] || Styles[st'] != Styles[st] || t' + 1 != t + 1;
    FetchNone(TableBlock(parents, children, si', st', t'), Sites[si], Styles[st], t + 1);
  }

  /** A table's block holds rows of that table only. */
  lemma TableBlockFetch(parents: seq<(int, int)>, children: seq<(int, int)>, si': nat, st': nat, t': nat, si: nat, st: nat, t: nat)
    requires ValidDraws(parents, children)
    requires si' < |Sites| && st' < |Styles| && t' < TablesPerStyle
    requires si < |Sites| && st < |Styles| && t < TablesPerStyle
    ensures Fetch(TableBlock(parents, children, si', st', t'), Sites[si], Styles[st], t + 1)
            == if si' == si && st' == st && t' == t then TableFetched(parents, children, si, st, t) else []
  {
    if si' == si && st' == st && t' == t {
      OwnTableFetch(parents, children, si, st, t);
    } else {
      OtherTableFetch(parents, children, si', st', t', si, st, t);
    }
  }

  lemma StyleRowsFetch(parents: seq<(int, int)>, children: seq<(int, int)>, si': nat, st': nat, si: nat, st: nat, t: nat)
    requires ValidDraws(parents, children)
    requires si' < |Sites| && st' < |Styles|
    requires si < |Sites| && st < |Styles| && t < TablesPerStyle
    ensures Fetch(StyleRows(parents, children, si', st'), Sites[si], Styles[st], t + 1)
            == if si' == si && st' == st then TableFetched(parents, children, si, st, t) else []
  {
    var blocks := StyleBlocks(parents, children, si', st');
    var j := if si' == si && st' == st then t else -1;
    forall b | 0 <= b < |blocks| ensures Fetch(blocks[b], Sites[si], Styles[st], t + 1) == if b == j then TableFetched(parents, children, si, st, t) else [] {
      TableBlockFetch(parents, children, si', st', b, si, st, t);
    }
    FetchFlatten(blocks, Sites[si], Styles[st], t + 1, j);
  }

  lemma SiteRowsFetch(parents: seq<(int, int)>, children: seq<(int, int)>, si': nat, si: nat, st: nat, t: nat)
    requires ValidDraws(parents, children)
    requires si' < |Sites|
    requires si < |Sites| && st < |Styles| && t < TablesPerStyle
    ensures Fetch(SiteRows(parents, children, si'), Sites[si], Styles[st], t + 1)
            == if si' == si then TableFetched(parents, children, si, st, t) else []
  {
    var blocks := SiteBlocks(parents, children, si');
    var j := if si' == si then st else -1;
    forall b | 0 <= b < |blocks| ensures Fetch(blocks[b], Sites[si], Styles[st], t + 1) == if b == j then TableFetched(parents, children, si, st, t) else [] {
      StyleRowsFetch(parents, children, si', b, si, st, t);
    }
    FetchFlatten(blocks, Sites[si], Styles[st], t + 1, j);
  }

  /**
   * After initialisation, fetching a site, style and table number returns
   * exactly that table's fourteen rectangles: its labels in order, each
   * with its drawn geometry.
   */
  lemma FetchDefaultTable(parents: seq<(int, int)>, children: seq<(int, int)>, si: nat, st: nat, t: nat)
    requires ValidDraws(parents, children)
    requires si < |Sites| && st < |Styles| && t < TablesPerStyle
    ensures var fetched := Fetch(DefaultRows(parents, children), Sites[si], Styles[st], t + 1);
      |fetched| == RowsPerTable
      && forall slot :: 0 <= slot < RowsPerTable ==>
        fetched[slot] == LabelledRect(ExpectedLabels[slot], SlotRect(parents, children, TableIndex(si, st, t), slot))
  {
    var blocks := LayoutBlocks(parents, children);
    forall b | 0 <= b < |blocks| ensures Fetch(blocks[b], Sites[si], Styles[st], t + 1) == if b == si then TableFetched(parents, children, si, st, t) else [] {
      SiteRowsFetch(parents, children, b, si, st, t);
    }
    FetchFlatten(blocks, Sites[si], Styles[st], t + 1, si);
    SlotLabels();
  }
}
