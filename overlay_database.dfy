/**
 * The overlay's two tables. `overlay_table` holds one rectangle per row,
 * tagged with the table number, site, style and a label; it is kept as the
 * sequence of its rows. `overlay` holds the user's preferences in the row
 * with id 1; it is kept as a map from id to row.
 */
module OverlayDatabase {
  import opened Enumerations

  datatype Rect = Rect(x: int, y: int, width: int, height: int)

  /** A row of `overlay_table`; `name` is its `label` column (its generated id is not modelled). */
  datatype OverlayRow = OverlayRow(tableId: int, site: string, style: string, name: string, rect: Rect)

  /** A fetched row: `(label, x, y, width, height)`. */
  datatype LabelledRect = LabelledRect(name: string, rect: Rect)

  /** A row of `overlay`: `(site, style, nombre_tables, niveau_aide)`. */
  datatype Preferences = Preferences(site: string, style: string, tableCount: int, helpLevel: int)

  /** The answer get_user_preferences gives when it has to create the row. */
  const FallbackPreferences: Preferences := Preferences("Winamax", "Heads-Up", 1, 0)

  /** The id of the only preferences row the program reads or writes. */
  const PreferencesId: int := 1

  // ---------------------------------------------------------------------------
  // Rectangles
  // ---------------------------------------------------------------------------

  /** The WHERE clause of fetch_overlay_table_data. */
  predicate Matches(row: OverlayRow, site: string, style: string, tableId: int)
  {
    row.site == site && row.style == style && row.tableId == tableId
  }

  /** The WHERE clause of save_rectangle_position: site and style play no part. */
  predicate IsTarget(row: OverlayRow, tableId: int, name: string)
  {
    row.tableId == tableId && row.name == name
  }

  function Projected(row: OverlayRow): LabelledRect
  {
    LabelledRect(row.name, row.rect)
  }

  /** The positions of the rows the WHERE clause selects whose projection is `e`. */
  function Selected(rows: seq<OverlayRow>, site: string, style: string, tableId: int, e: LabelledRect): set<int>
  {
    set i | 0 <= i < |rows| && Matches(rows[i], site, style, tableId) && Projected(rows[i]) == e
  }

  /** The first row is selected or not; the rest are selected by their positions in the tail. */
  lemma SelectedCons(rows: seq<OverlayRow>, site: string, style: string, tableId: int, e: LabelledRect)
    requires rows != []
    ensures |Selected(rows, site, style, tableId, e)|
      == (if Matches(rows[0], site, style, tableId) && Projected(rows[0]) == e then 1 else 0)
         + |Selected(rows[1..], site, style, tableId, e)|
  {
    var all := Selected(rows, site, style, tableId, e);
    var tail := Selected(rows[1..], site, style, tableId, e);
    ShiftedCardinality(tail);
    forall i | i in all && i != 0 ensures i in Shifted(tail) {
      assert rows[1..][i - 1] == rows[i];
      assert i - 1 in tail;
    }
    forall i | i in Shifted(tail) ensures i in all && i != 0 {
      var j :| j in tail && i == j + 1;
      assert rows[1..][j] == rows[i];
    }
    if Matches(rows[0], site, style, tableId) && Projected(rows[0]) == e {
      assert all == Shifted(tail) + {0};
    } else {
      assert all == Shifted(tail);
    }
  }

  /** fetch_overlay_table_data: the matching rows, in table order, projected to label and geometry. */
  function Fetch(rows: seq<OverlayRow>, site: string, style: string, tableId: int): (result: seq<LabelledRect>)
    ensures |result| <= |rows|
    ensures forall e :: multiset(result)[e] == |Selected(rows, site, style, tableId, e)|
    ensures forall e :: e in result <==>
      exists i :: 0 <= i < |rows| && Matches(rows[i], site, style, tableId) && e == Projected(rows[i])
  {
    if rows == [] then []
    else
      var rest := Fetch(rows[1..], site, style, tableId);
      FetchStep(rows, site, style, tableId, rest);
      if Matches(rows[0], site, style, tableId) then [Projected(rows[0])] + rest else rest
  }

  /** One row more: the first row's projection, if it matches, followed by the fetch of the rest. */
  lemma FetchStep(rows: seq<OverlayRow>, site: string, style: string, tableId: int, rest: seq<LabelledRect>)
    requires rows != []
    requires forall e :: multiset(rest)[e] == |Selected(rows[1..], site, style, tableId, e)|
    requires forall e :: e in rest <==>
      exists i :: 0 <= i < |rows[1..]| && Matches(rows[1..][i], site, style, tableId) && e == Projected(rows[1..][i])
    ensures var result := if Matches(rows[0], site, style, tableId) then [Projected(rows[0])] + rest else rest;
      (forall e :: multiset(result)[e] == |Selected(rows, site, style, tableId, e)|)
      && (forall e :: e in result <==>
           exists i :: 0 <= i < |rows| && Matches(rows[i], site, style, tableId) && e == Projected(rows[i]))
  {
    forall e | e in rest
      ensures exists i :: 1 <= i < |rows| && Matches(rows[i], site, style, tableId) && e == Projected(rows[i])
    {
      var i :| 0 <= i < |rows[1..]| && Matches(rows[1..][i], site, style, tableId) && e == Projected(rows[1..][i]);
      assert rows[i + 1] == rows[1..][i];
    }
    forall e, i | 1 <= i < |rows| && Matches(rows[i], site, style, tableId) && e == Projected(rows[i])
      ensures e in rest
    {
      assert rows[1..][i - 1] == rows[i];
    }
    forall e ensures |Selected(rows, site, style, tableId, e)|
      == (if Matches(rows[0], site, style, tableId) && Projected(rows[0]) == e then 1 else 0)
         + |Selected(rows[1..], site, style, tableId, e)|
    {
      SelectedCons(rows, site, style, tableId, e);
    }
  }

  /** The fetch of two runs of rows laid end to end: the rows keep their order. */
  lemma {:induction false} FetchConcat(a: seq<OverlayRow>, b: seq<OverlayRow>, site: string, style: string, tableId: int)
    ensures Fetch(a + b, site, style, tableId) == Fetch(a, site, style, tableId) + Fetch(b, site, style, tableId)
  {
    if a != [] {
      var ab := a + b;
      assert ab[0] == a[0] && ab[1..] == a[1..] + b;
      assert Fetch(ab, site, style, tableId)
        == if Matches(ab[0], site, style, tableId) then [Projected(ab[0])] + Fetch(ab[1..], site, style, tableId)
           else Fetch(ab[1..], site, style, tableId);
      FetchConcat(a[1..], b, site, style, tableId);
      if Matches(a[0], site, style, tableId) {
        AppendAssoc([Projected(a[0])], Fetch(a[1..], site, style, tableId), Fetch(b, site, style, tableId));
      }
    } else {
      assert a + b == b;
    }
  }

  /** No row matches: the fetch is empty. */
  lemma FetchNone(rows: seq<OverlayRow>, site: string, style: string, tableId: int)
    requires forall i :: 0 <= i < |rows| ==> !Matches(rows[i], site, style, tableId)
    ensures Fetch(rows, site, style, tableId) == []
  {
  }

  /** Every row matches: the fetch is every row's projection, in order. */
  lemma {:induction false} FetchAll(rows: seq<OverlayRow>, site: string, style: string, tableId: int)
    requires forall i :: 0 <= i < |rows| ==> Matches(rows[i], site, style, tableId)
    ensures Fetch(rows, site, style, tableId) == seq(|rows|, i requires 0 <= i < |rows| => Projected(rows[i]))
  {
    if rows != [] {
      FetchAll(rows[1..], site, style, tableId);
    }
  }

  /** Blocks of rows laid end to end, where only block `j` (if any) has matching rows: the fetch is block `j`'s. */
  lemma {:induction false} FetchFlatten(blocks: seq<seq<OverlayRow>>, site: string, style: string, tableId: int, j: int)
    requires forall b :: 0 <= b < |blocks| && b != j ==> Fetch(blocks[b], site, style, tableId) == []
    ensures Fetch(Flatten(blocks), site, style, tableId) == if 0 <= j < |blocks| then Fetch(blocks[j], site, style, tableId) else []
  {
    if blocks != [] {
      var init := blocks[..|blocks| - 1];
      FetchFlatten(init, site, style, tableId, j);
      FetchConcat(Flatten(init), blocks[|blocks| - 1], site, style, tableId);
    }
  }

  /**
   * save_rectangle_position: every row with that table number and label, on
   * any site and style, gets the new geometry; nothing is inserted.
   */
  function Relocated(rows: seq<OverlayRow>, tableId: int, name: string, rect: Rect): (updated: seq<OverlayRow>)
    ensures |updated| == |rows|
    ensures forall i :: 0 <= i < |rows| && IsTarget(rows[i], tableId, name) ==> updated[i] == rows[i].(rect := rect)
    ensures forall i :: 0 <= i < |rows| && !IsTarget(rows[i], tableId, name) ==> updated[i] == rows[i]
  {
    if rows == [] then []
    else
      var head := if IsTarget(rows[0], tableId, name) then rows[0].(rect := rect) else rows[0];
      [head] + Relocated(rows[1..], tableId, name, rect)
  }

  /** The update only ever changes geometry: table numbers, sites, styles and labels stay put. */
  lemma RelocatedKeepsTags(rows: seq<OverlayRow>, tableId: int, name: string, rect: Rect)
    ensures forall i :: 0 <= i < |rows| ==>
      var u := Relocated(rows, tableId, name, rect)[i];
      u.tableId == rows[i].tableId && u.site == rows[i].site && u.style == rows[i].style && u.name == rows[i].name
  {
  }

  /** Saving a (table, label) that has no row leaves the table as it was. */
  lemma RelocateWithoutTargetIsNoOp(rows: seq<OverlayRow>, tableId: int, name: string, rect: Rect)
    requires forall i :: 0 <= i < |rows| ==> !IsTarget(rows[i], tableId, name)
    ensures Relocated(rows, tableId, name, rect) == rows
  {
  }

  /** Saving the same geometry twice is the same as saving it once. */
  lemma RelocateIdempotent(rows: seq<OverlayRow>, tableId: int, name: string, rect: Rect)
    ensures Relocated(Relocated(rows, tableId, name, rect), tableId, name, rect) == Relocated(rows, tableId, name, rect)
  {
    var once := Relocated(rows, tableId, name, rect);
    var twice := Relocated(once, tableId, name, rect);
    forall i | 0 <= i < |rows| ensures twice[i] == once[i] {
      if IsTarget(rows[i], tableId, name) {
        assert IsTarget(once[i], tableId, name);
      }
    }
  }

  /**
   * After a save, a fetch of that table number on any site and style shows
   * the new geometry for that label, and shows it whenever such a row exists.
   */
  lemma SaveThenFetch(rows: seq<OverlayRow>, tableId: int, name: string, rect: Rect, site: string, style: string)
    ensures forall e :: e in Fetch(Relocated(rows, tableId, name, rect), site, style, tableId) && e.name == name ==>
      e.rect == rect
    ensures (exists i :: 0 <= i < |rows| && Matches(rows[i], site, style, tableId) && rows[i].name == name) ==>
      LabelledRect(name, rect) in Fetch(Relocated(rows, tableId, name, rect), site, style, tableId)
  {
    var updated := Relocated(rows, tableId, name, rect);
    forall e | e in Fetch(updated, site, style, tableId) && e.name == name ensures e.rect == rect {
      var i :| 0 <= i < |updated| && Matches(updated[i], site, style, tableId) && e == Projected(updated[i]);
      assert IsTarget(rows[i], tableId, name);
    }
    if exists i :: 0 <= i < |rows| && Matches(rows[i], site, style, tableId) && rows[i].name == name {
      var i :| 0 <= i < |rows| && Matches(rows[i], site, style, tableId) && rows[i].name == name;
      assert Projected(updated[i]) == LabelledRect(name, rect);
    }
  }

  /** A save leaves the fetch of every other table number unchanged. */
  lemma {:induction false} SaveKeepsOtherTables(rows: seq<OverlayRow>, tableId: int, name: string, rect: Rect,
                                              site: string, style: string, otherTable: int)
    requires otherTable != tableId
    ensures Fetch(Relocated(rows, tableId, name, rect), site, style, otherTable) == Fetch(rows, site, style, otherTable)
  {
    if rows != [] {
      var updated := Relocated(rows, tableId, name, rect);
      assert updated[1..] == Relocated(rows[1..], tableId, name, rect);
      SaveKeepsOtherTables(rows[1..], tableId, name, rect, site, style, otherTable);
      assert Matches(updated[0], site, style, otherTable) <==> Matches(rows[0], site, style, otherTable);
      assert Matches(rows[0], site, style, otherTable) ==> updated[0] == rows[0];
    }
  }

  // ---------------------------------------------------------------------------
  // Preferences
  // ---------------------------------------------------------------------------

  /**
   * get_user_preferences: the answer and the `overlay` rows afterwards. When
   * row 1 is missing it is inserted with the columns' own defaults, while
   * the answer is the fixed fallback.
   */
  function GetPreferences(prefs: map<int, Preferences>, columnDefaults: Preferences): (out: (Preferences, map<int, Preferences>))
    ensures PreferencesId in out.1
    ensures PreferencesId in prefs ==> out.0 == prefs[PreferencesId] && out.1 == prefs
    ensures PreferencesId !in prefs ==> out.0 == FallbackPreferences
    ensures out.1.Keys == prefs.Keys + {PreferencesId}
    ensures forall id :: id in prefs ==> out.1[id] == prefs[id]
  {
    if PreferencesId in prefs then (prefs[PreferencesId], prefs)
    else (FallbackPreferences, prefs[PreferencesId := columnDefaults])
  }

  /** update_user_preferences: overwrites row 1 when it exists and never inserts it. */
  function UpdatePreferences(prefs: map<int, Preferences>, p: Preferences): (updated: map<int, Preferences>)
    ensures updated.Keys == prefs.Keys
    ensures PreferencesId in prefs ==> updated[PreferencesId] == p
    ensures forall id :: id in prefs && id != PreferencesId ==> updated[id] == prefs[id]
  {
    if PreferencesId in prefs then prefs[PreferencesId := p] else prefs
  }

  /** Reading after an update of the existing row gives the update back. */
  lemma UpdateThenGet(prefs: map<int, Preferences>, p: Preferences, columnDefaults: Preferences)
    requires PreferencesId in prefs
    ensures GetPreferences(UpdatePreferences(prefs, p), columnDefaults).0 == p
    ensures GetPreferences(UpdatePreferences(prefs, p), columnDefaults).1 == UpdatePreferences(prefs, p)
  {
  }

  /** An update made before row 1 exists is lost: the next read creates the row and answers the fallback. */
  lemma UpdateBeforeRowExistsIsLost(prefs: map<int, Preferences>, p: Preferences, columnDefaults: Preferences)
    requires PreferencesId !in prefs
    ensures GetPreferences(UpdatePreferences(prefs, p), columnDefaults).0 == FallbackPreferences
  {
  }

  /** A second read inserts nothing more and answers what the first one stored. */
  lemma GetTwice(prefs: map<int, Preferences>, columnDefaults: Preferences)
    ensures var first := GetPreferences(prefs, columnDefaults);
      GetPreferences(first.1, columnDefaults) == (first.1[PreferencesId], first.1)
  {
  }

  // ---------------------------------------------------------------------------
  // The database
  // ---------------------------------------------------------------------------

  /**
   * The two tables of the overlay database. The `overlay` table's column
   * defaults are not fixed by anything here, so they are a parameter.
   */
  class OverlayStore {
    var rects: seq<OverlayRow>
    var prefs: map<int, Preferences>
    const columnDefaults: Preferences

    constructor (rects: seq<OverlayRow>, prefs: map<int, Preferences>, columnDefaults: Preferences)
      ensures this.rects == rects && this.prefs == prefs && this.columnDefaults == columnDefaults
    {
      this.rects := rects;
      this.prefs := prefs;
      this.columnDefaults := columnDefaults;
    }

    /** fetch_overlay_table_data: read-only. */
    method FetchOverlayTableData(site: string, style: string, tableId: int) returns (result: seq<LabelledRect>)
      ensures result == Fetch(rects, site, style, tableId)
      ensures forall e :: multiset(result)[e] == |Selected(rects, site, style, tableId, e)|
      ensures forall e :: e in result <==>
        exists i :: 0 <= i < |rects| && Matches(rects[i], site, style, tableId) && e == Projected(rects[i])
    {
      result := Fetch(rects, site, style, tableId);
    }

    /** save_rectangle_position: an UPDATE of the geometry, keyed by table number and label. */
    method SaveRectanglePosition(tableId: int, name: string, x: int, y: int, width: int, height: int)
      modifies this
      ensures rects == Relocated(old(rects), tableId, name, Rect(x, y, width, height))
      ensures prefs == old(prefs)
    {
      rects := Relocated(rects, tableId, name, Rect(x, y, width, height));
    }

    /** get_user_preferences: reads row 1, inserting it first when it is missing. */
    method GetUserPreferences() returns (p: Preferences)
      modifies this
      ensures (p, prefs) == GetPreferences(old(prefs), columnDefaults)
      ensures rects == old(rects)
    {
      if PreferencesId in prefs {
        return prefs[PreferencesId];
      }
      prefs := prefs[PreferencesId := columnDefaults];
      return FallbackPreferences;
    }

    /** update_user_preferences: an UPDATE of row 1 only. */
    method UpdateUserPreferences(site: string, style: string, tableCount: int, helpLevel: int)
      modifies this
      ensures prefs == UpdatePreferences(old(prefs), Preferences(site, style, tableCount, helpLevel))
      ensures rects == old(rects)
    {
      if PreferencesId in prefs {
        prefs := prefs[PreferencesId := Preferences(site, style, tableCount, helpLevel)];
      }
    }
  }
}
