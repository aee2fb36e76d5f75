# Poker hand ranges and the overlay's keyed stores, in Dafny

This project models the logic parts of the Nemesia Poker Suite:

- **The range calculator.**
  - Each starting hand counts for its combinations: 6 for a pair, 4 for a suited hand, 12 for an offsuit hand.
  - A range's share of the 1326 combinations is its percentage.
  - A percentage between two tabulated ranges is served by greedy interpolation. It starts from the lower range and adds hands of the upper range until the next one would exceed the budget.
- **The range selector window's state.**
  - The 13×13 grid of hand names.
  - The selected range.
  - One checkable button per grid cell.
  - The displayed percentage.
  - The selected position and range type.
- **The `ranges` table.** One row per (position, range type). Each row stores the hands joined with commas.
- **The overlay's two tables.**
  - The rectangles of `overlay_table`, with a filtered fetch and an update keyed by table number and label.
  - The preferences row 1 of `overlay`.
  - The initialiser that fills `overlay_table` with the default layout: 90 tables of one parent and 13 children each.

Modules follow the source files:

- `RangeCalculator` (range_calculator.dfy)
- `HandGrid` and `RangeGui` (hand_grid.dfy, range_gui.dfy)
- `RangeDatabase` (range_database.dfy)
- `OverlayDatabase` (overlay_database.dfy)
- `DefaultRectangles` (default_rectangles.dfy)
- `Enumerations`, which holds the helpers for sets and duplicate-free sequences.

Modelling choices:

- **Set iteration.** Python iterates sets in an order the program does not fix. The loops pick an arbitrary remaining element. Specifications quantify over every duplicate-free order: `IsGreedyFill` holds when *some* iteration order yields the result.
- **`RANGES` and the other unseen inputs.** `RANGES` is defined in a file that is not part of this model. It is a parameter: a map from percentage to a set of hand names. The window's database is a `RangeTable` object passed to its constructor.
- **SQL tables.** Each becomes an abstract in-memory value:
  - `ranges`: a sequence of rows whose primary key is an invariant (`UniqueKeys`).
  - `overlay_table`: a sequence of rows.
  - `overlay`: a map from id to row.
- **Errors.**
  - A Python `ValueError` becomes the `ValueError` result.
  - A missing `ranges` table (the caught sqlite error) is the state `created == false`.
- **Random positions.** The positions `random.randint` draws are inputs, with the bounds `randint` guarantees. They are consumed in the order the program draws them.
- **Percentages.** They are exact reals. `int()` is truncation toward zero (`Truncate`).

## Model

| member | source | states |
|---|---|---|
| `RangeCalculator.CalculateCombinations` | range_manager/range_bot1.9.exe/range_calculator.py:8-18 | The loop's total is the combination count of the set: 6 per two-character hand, 4 per hand ending in `s`, 12 otherwise. This holds whatever order the set is visited in. |
| `RangeCalculator.CombosRemove` | range_manager/range_bot1.9.exe/range_calculator.py:11-17 | Any hand can be counted first: the combination count does not depend on the iteration order. |
| `RangeCalculator.CombosEmpty` | range_manager/range_bot1.9.exe/range_calculator.py:10 | The empty range counts 0 combinations. |
| `RangeCalculator.CombosDisjointUnion` | range_manager/range_bot1.9.exe/range_calculator.py:10-18 | The count is additive over disjoint sets of hands. |
| `RangeCalculator.CombosMonotonic` | range_manager/range_bot1.9.exe/range_calculator.py:10-18 | A superset never counts fewer combinations. |
| `RangeCalculator.CombosAddOne` | range_manager/range_bot1.9.exe/range_calculator.py:41-42 | Adding a new hand raises the count by exactly the weight line 41 computes. Adding any hand raises it by at most that. |
| `RangeCalculator.CombosOfDistinct` | range_manager/range_bot1.9.exe/range_calculator.py:10-18 | For a list without repetitions, the count of its set is its weight sum. |
| `RangeCalculator.CalculatePercentage` | range_manager/range_bot1.9.exe/range_calculator.py:21-24 | The percentage times 1326 equals the combinations times 100, and it is never negative. |
| `RangeCalculator.Truncate` | range_manager/range_bot1.9.exe/range_calculator.py:34 | `int()` rounds toward zero, from below for non-negative values and from above for negative ones. The budget is `int(target / 100 * 1326)`. |
| `RangeCalculator.AdmittedStopsAtFirstOvershoot` | range_manager/range_bot1.9.exe/range_calculator.py:40-44 | Every admitted candidate fitted the budget when it was considered. When the loop stops early, the next candidate would have exceeded the budget. |
| `RangeCalculator.GreedyFillTakesPrefixOnly` | range_manager/range_bot1.9.exe/range_calculator.py:42-43 | The loop breaks rather than skips: no candidate after the stopping point is in the result. |
| `RangeCalculator.GreedyFillWithinTarget` | range_manager/range_bot1.9.exe/range_calculator.py:41-44 | Once at least one candidate is admitted, the result's count is at most the budget. |
| `RangeCalculator.GreedyFillProperties` | range_manager/range_bot1.9.exe/range_calculator.py:29-46 | A greedy fill contains the lower range and lies within lower ∪ upper. If it differs from the lower range, its count is within the budget. |
| `RangeCalculator.ExhaustedLoopIsGreedyFill` | range_manager/range_bot1.9.exe/range_calculator.py:40-46 | A loop that visits every candidate returns the greedy fill for the order it followed. |
| `RangeCalculator.BrokenLoopIsGreedyFill` | range_manager/range_bot1.9.exe/range_calculator.py:42-46 | A loop that breaks at a candidate returns the greedy fill for the order it followed. |
| `RangeCalculator.InterpolateRanges` | range_manager/range_bot1.9.exe/range_calculator.py:27-46 | The result is the greedy fill for some iteration order of `upper - lower`. It contains `RANGES[lower]`, lies within `RANGES[lower] ∪ RANGES[upper]`, and stays within `int(target/100*1326)` when it adds any hand. |
| `RangeCalculator.HasMaximum` | range_manager/range_bot1.9.exe/range_calculator.py:55 | A non-empty set of tabulated percentages has a largest element, so `max` succeeds. |
| `RangeCalculator.HasMinimum` | range_manager/range_bot1.9.exe/range_calculator.py:56 | A non-empty set has a smallest element, so `min` succeeds. |
| `RangeCalculator.GetHandsForPercentage` | range_manager/range_bot1.9.exe/range_calculator.py:49-59 | A tabulated percentage returns exactly its range. The result is a ValueError exactly when the percentage is not tabulated and no key lies below it or none above it. Otherwise the result is a greedy fill between the largest key below and the smallest key above. |
| `RangeCalculator.HandsForPercentageWithin` | range_manager/range_bot1.9.exe/range_calculator.py:49-59 | Any range returned comes from the tabulated ranges: if they are all within a universe, so is the result. |
| `HandGrid.RanksDistinct` | range_manager/range_bot1.9.exe/gui_range.py:45 | The 13 ranks are pairwise distinct. |
| `HandGrid.GenerateHandsGrid` | range_manager/range_bot1.9.exe/gui_range.py:43-57 | The nested loops build the 13×13 grid of `HandName(i, j)`, with 13 rows of 13 entries. |
| `HandGrid.HandNameKind` | range_manager/range_bot1.9.exe/gui_range.py:50-55 | The calculator classifies the diagonal as pairs (weight 6), the cells above it as suited (4) and those below it as offsuit (12). |
| `HandGrid.HandNameRanks` | range_manager/range_bot1.9.exe/gui_range.py:50-55 | The higher rank comes first, and `[i][j]` and `[j][i]` name the same two ranks. |
| `HandGrid.HandNameInjective` | range_manager/range_bot1.9.exe/gui_range.py:45-57 | No two cells carry the same name. |
| `HandGrid.FlatGrid` | range_manager/range_bot1.9.exe/gui_range.py:88-94 | Laid out row by row, the grid has 169 entries, and entry `k` is cell `(k / 13, k % 13)`. |
| `HandGrid.FlatGridEnumeratesGrid` | range_manager/range_bot1.9.exe/gui_range.py:88-94 | The buttons' texts list every grid name exactly once. |
| `HandGrid.GridPrefixCounts` | range_manager/range_bot1.9.exe/gui_range.py:47-56 | The first `m` rows hold `m` pairs, `(25m - m²)/2` suited hands and `(m² - m)/2` offsuit hands. |
| `HandGrid.GridCounts` | range_manager/range_bot1.9.exe/gui_range.py:43-57 | The grid names 169 distinct hands: 13 pairs, 78 suited and 78 offsuit. Their weights add up to exactly 1326. |
| `HandGrid.GridPercentageBounds` | range_manager/range_bot1.9.exe/range_calculator.py:21-24 | Any selection of grid hands covers between 0 and 100 percent, and the whole grid covers exactly 100. |
| `RangeDatabase.Split` | range_manager/range_bot1.9.exe/database_range.py:91 | `split(",")` always yields at least one piece, and no piece contains a comma. |
| `RangeDatabase.JoinSplit` | range_manager/range_bot1.9.exe/database_range.py:91 | Joining the pieces of a split gives the stored text back. |
| `RangeDatabase.SplitJoin` | range_manager/range_bot1.9.exe/database_range.py:53 | Splitting the join of a non-empty list of comma-free pieces gives that list back, empty pieces included. |
| `RangeDatabase.EmptyListReloadsAsEmptyPiece` | range_manager/range_bot1.9.exe/database_range.py:59 | The empty list is stored as `""`, which splits to `[""]`. |
| `RangeDatabase.FindKey` | range_manager/range_bot1.9.exe/database_range.py:43-46 | The lookup finds a row with the key exactly when the key is stored. |
| `RangeDatabase.Upsert` | range_manager/range_bot1.9.exe/database_range.py:43-60 | An existing key is updated in place and the table keeps its length; a new key is appended. Rows with other keys are unchanged. The stored keys gain the key. The primary key stays unique. |
| `RangeDatabase.Lookup` | range_manager/range_bot1.9.exe/database_range.py:84-94 | A key never saved loads as `[]`. A saved one loads as at least one comma-free piece. |
| `RangeDatabase.LookupFindsTheRow` | range_manager/range_bot1.9.exe/database_range.py:13-20 | Under the primary key, loading a key reads that key's own row. |
| `RangeDatabase.SaveThenLoad` | range_manager/range_bot1.9.exe/database_range.py:30-94 | Saving a non-empty list of comma-free hands and loading the same key returns that list. |
| `RangeDatabase.SaveEmptyThenLoad` | range_manager/range_bot1.9.exe/database_range.py:90-91 | Saving `[]` and loading the same key returns `[""]`, not `[]`. |
| `RangeDatabase.SaveKeepsOtherKeys` | range_manager/range_bot1.9.exe/database_range.py:49-53 | A save leaves what every other key loads unchanged. |
| `RangeDatabase.UpsertIdempotent` | range_manager/range_bot1.9.exe/database_range.py:48-60 | Saving the same hands twice is the same as saving them once. |
| `RangeDatabase.SavedRangeReloads` | range_manager/range_bot1.9.exe/database_range.py:69-91 | The set of what loads after saving `list(range)` is the range itself when non-empty, and `{""}` when the range is empty. |
| `RangeDatabase.RangeTable.CreateTable` | range_manager/range_bot1.9.exe/database_range.py:5-27 | The table exists afterwards, and existing rows survive (`IF NOT EXISTS`). |
| `RangeDatabase.RangeTable.SaveRange` | range_manager/range_bot1.9.exe/database_range.py:30-66 | The rows become the upsert of the joined hands, or stay unchanged when the table is missing. The primary key invariant is kept. |
| `RangeDatabase.RangeTable.LoadRange` | range_manager/range_bot1.9.exe/database_range.py:69-94 | Returns the split stored text, whose join is exactly the stored text. Returns `[]` for a missing key or a missing table. |
| `RangeDatabase.RangeTable.LoadAllRanges` | range_manager/range_bot1.9.exe/database_range.py:97-117 | Returns exactly the stored rows, one per key. |
| `RangeGui.Toggled` | range_manager/range_bot1.9.exe/gui_range.py:125-130 | After the toggle, the hand is in the range exactly when `checked`, and every other hand's membership is unchanged. |
| `RangeGui.ToggleIdempotent` | range_manager/range_bot1.9.exe/gui_range.py:125-130 | Toggling a hand to the same state twice is the same as once. |
| `RangeGui.ToggleToCurrentState` | range_manager/range_bot1.9.exe/gui_range.py:127-130 | Adding a present hand or discarding an absent one changes nothing. |
| `RangeGui.LoadedRange` | range_manager/range_bot1.9.exe/gui_range.py:172-176 | The loaded range holds exactly the hands of the loaded list, and is empty for an empty list. |
| `RangeGui.GridHandsCommaFree` | range_manager/range_bot1.9.exe/gui_range.py:50-55 | No grid name contains a comma. |
| `RangeGui.SaveThenReloadRange` | range_manager/range_bot1.9.exe/gui_range.py:156-176 | Saving a selection of grid hands and loading the same position and type restores it. An empty selection comes back as `{""}`. |
| `RangeGui.CreateButtonLabels` | range_manager/range_bot1.9.exe/gui_range.py:88-94 | The buttons are created row by row, one per grid cell, in the flattened grid's order. |
| `RangeGui.ListOfSet` | range_manager/range_bot1.9.exe/gui_range.py:160 | `list(self.range)` lists every hand of the range exactly once. |
| `RangeGui.RangeSelector.constructor` | range_manager/range_bot1.9.exe/gui_range.py:13-41 | Sets up UTG / Open and creates the table, keeping its rows. The range is then what load_range gives for that key. Buttons and label are in step with the range. |
| `RangeGui.RangeSelector.UpdatePercentage` | range_manager/range_bot1.9.exe/gui_range.py:134-137 | The label shows the range's percentage, and nothing else changes. |
| `RangeGui.RangeSelector.UpdateButtons` | range_manager/range_bot1.9.exe/gui_range.py:150-154 | Afterwards every grid button is checked exactly when its text is in the range. |
| `RangeGui.RangeSelector.ToggleHand` | range_manager/range_bot1.9.exe/gui_range.py:125-132 | The range becomes the toggle of the hand, and the label shows the new percentage. |
| `RangeGui.RangeSelector.ClickButton` | range_manager/range_bot1.9.exe/gui_range.py:90-93 | A click flips one button and toggles its hand. The buttons stay in step with the range, because the labels are distinct. |
| `RangeGui.RangeSelector.ApplyPercentage` | range_manager/range_bot1.9.exe/gui_range.py:139-148 | Unparsable text, or a percentage without brackets, leaves the range unchanged. Otherwise the range becomes a range get_hands_for_percentage may return. If the tabulated ranges hold only grid hands, the range stays within the grid and the percentage within [0, 100]. |
| `RangeGui.RangeSelector.LoadRange` | range_manager/range_bot1.9.exe/gui_range.py:166-180 | The range becomes the loaded hands for the selected position and type, or the empty set when nothing is loaded. The buttons and label follow. |
| `RangeGui.RangeSelector.SaveRange` | range_manager/range_bot1.9.exe/gui_range.py:156-161 | The stored rows become the upsert of some iteration order of the range, under the selected position and type. |
| `RangeGui.RangeSelector.SelectPosition` | range_manager/range_bot1.9.exe/gui_range.py:70-72 | Choosing a different position reloads the range for it. Choosing the current one fires no signal. |
| `RangeGui.RangeSelector.SelectRangeType` | range_manager/range_bot1.9.exe/gui_range.py:75-77 | Choosing a different range type reloads the range for it. Choosing the current one fires no signal. |
| `OverlayDatabase.Fetch` | Overlay/Overlay_database.py:51-61 | The result lists exactly the projections `(label, x, y, width, height)` of the rows whose site, style and table_id all match. Each projection occurs as many times as there are matching rows with that projection. |
| `OverlayDatabase.FetchConcat` | Overlay/Overlay_database.py:55-60 | The fetch of two runs of rows laid end to end is the fetch of the first followed by that of the second, so the result keeps table order. |
| `OverlayDatabase.FetchNone` | Overlay/Overlay_database.py:55-60 | When no row matches the WHERE clause, the fetch is empty. |
| `OverlayDatabase.FetchAll` | Overlay/Overlay_database.py:55-60 | When every row matches, the fetch is every row's projection, in order. |
| `OverlayDatabase.FetchFlatten` | Overlay/Overlay_database.py:55-60 | Over blocks of rows where only one block has matching rows, the fetch is that block's fetch. |
| `OverlayDatabase.Relocated` | Overlay/Overlay_database.py:63-72 | Every row with the given table_id and label, on any site and style, gets the new geometry. Every other row is unchanged. Nothing is inserted. |
| `OverlayDatabase.RelocatedKeepsTags` | Overlay/Overlay_database.py:67-70 | The update never changes a row's table_id, site, style or label. |
| `OverlayDatabase.RelocateWithoutTargetIsNoOp` | Overlay/Overlay_database.py:67-72 | Saving a (table_id, label) without a row leaves the table as it was. |
| `OverlayDatabase.RelocateIdempotent` | Overlay/Overlay_database.py:67-71 | Saving the same geometry twice is the same as saving it once. |
| `OverlayDatabase.SaveThenFetch` | Overlay/Overlay_database.py:55-71 | After a save, a fetch of that table_id on any site and style shows the new geometry for that label, and shows it whenever such a row exists. |
| `OverlayDatabase.SaveKeepsOtherTables` | Overlay/Overlay_database.py:67-71 | A save leaves the fetch of every other table_id unchanged. |
| `OverlayDatabase.GetPreferences` | Overlay/Overlay_database.py:21-38 | If row 1 exists, it is returned and nothing changes. Otherwise row 1 is inserted and the answer is `("Winamax", "Heads-Up", 1, 0)`. Other rows are kept. |
| `OverlayDatabase.UpdatePreferences` | Overlay/Overlay_database.py:40-49 | Only row 1 changes, and only if it exists: no row is inserted. |
| `OverlayDatabase.UpdateThenGet` | Overlay/Overlay_database.py:21-49 | After updating an existing row 1, reading it returns the update. |
| `OverlayDatabase.UpdateBeforeRowExistsIsLost` | Overlay/Overlay_database.py:21-49 | An update made before row 1 exists is lost: the next read answers the fallback. |
| `OverlayDatabase.GetTwice` | Overlay/Overlay_database.py:21-38 | A second read inserts nothing and returns the stored row. |
| `OverlayDatabase.OverlayStore.FetchOverlayTableData` | Overlay/Overlay_database.py:51-61 | Read-only: returns exactly the matching rows' projections, one entry per matching row. |
| `OverlayDatabase.OverlayStore.SaveRectanglePosition` | Overlay/Overlay_database.py:63-73 | The rectangles become the relocated table, and the preferences are untouched. |
| `OverlayDatabase.OverlayStore.GetUserPreferences` | Overlay/Overlay_database.py:21-38 | The answer and the new preferences rows are those of `GetPreferences`, and the rectangles are untouched. |
| `OverlayDatabase.OverlayStore.UpdateUserPreferences` | Overlay/Overlay_database.py:40-49 | The preferences become those of `UpdatePreferences`, and the rectangles are untouched. |
| `DefaultRectangles.LayoutCounts` | Overlay/rectangles_tables.py:50-75 | 3 sites × 5 styles × 6 tables = 90 tables; 14 rows each (one parent, 13 children), 1260 rows and 1170 child offsets in all. |
| `DefaultRectangles.DefaultRows` | Overlay/rectangles_tables.py:50-75 | The initialised table, the tables laid end to end in loop order, has exactly `RowCount` (1260) rows. |
| `DefaultRectangles.CategoryAt` | Overlay/rectangles_tables.py:13-19 | Category `ci` of `RECTANGLE_CATEGORIES` has a default size in `DEFAULT_CHILD_SIZES`, and line 63 gives it 2 children, or 5 for `flop_turn_river`. |
| `DefaultRectangles.ChildSlot` | Overlay/rectangles_tables.py:62-70 | The `i`-th child of category `ci` takes slot `1 + 2ci + i` of its table and carries the label `category_{i+1}`. |
| `DefaultRectangles.ChildRectAt` | Overlay/rectangles_tables.py:65-69 | A child's rectangle is the parent's drawn position plus the child's own drawn offset, at its category's size. |
| `DefaultRectangles.RowIndex` | Overlay/rectangles_tables.py:50-75 | Row `14 * TableIndex(site, style, table) + slot` of the initialised table is that slot of that table. |
| `DefaultRectangles.TableOrder` | Overlay/rectangles_tables.py:50-52 | Every loop position `g < 90` is the table of site `g / 30`, style `g / 6 % 5` and table_id `g % 6 + 1`. |
| `DefaultRectangles.TableIndexInjective` | Overlay/rectangles_tables.py:50-52 | Different (site, style, table_id) triples reach different loop positions, so each of the 90 combinations occurs exactly once. |
| `DefaultRectangles.EveryRowPlaced` | Overlay/rectangles_tables.py:50-75 | Every row `n` of the initialised table is slot `n % 14` of the table at loop position `n / 14`: there are no other rows. |
| `DefaultRectangles.ParentInserted` | Overlay/rectangles_tables.py:54-59 | The parent the loops insert is its table's first row: label `table`, drawn position, 800×600. |
| `DefaultRectangles.ChildInserted` | Overlay/rectangles_tables.py:62-75 | The child the loops insert for copy `i` of category `ci` is its table's row in slot `1 + 2ci + i`. Its offset is the one drawn at that point of the loops. |
| `DefaultRectangles.ChildAppended` | Overlay/rectangles_tables.py:65-75 | Appending that child extends the rows inserted so far by exactly one slot of the table. |
| `DefaultRectangles.InsertCategory` | Overlay/rectangles_tables.py:63-75 | The copy loop appends the category's slots of the table and consumes exactly its 2 (or 5) drawn offsets. |
| `DefaultRectangles.InsertChildren` | Overlay/rectangles_tables.py:62-75 | The category loop completes the table after its parent and consumes its 13 drawn offsets. |
| `DefaultRectangles.InitializeDefaultRectangles` | Overlay/rectangles_tables.py:42-78 | Existing rectangles are deleted and replaced by exactly the default rows, in insertion order. The preferences are untouched. |
| `DefaultRectangles.SlotLabels` | Overlay/rectangles_tables.py:62-70 | Every table's labels are `table, pseudo_1, pseudo_2, carte_1, …, flop_turn_river_5`, in that order. |
| `DefaultRectangles.TableRowAt` | Overlay/rectangles_tables.py:50-75 | Row `14 * TableIndex(site, style, table) + slot` carries that site, style and table_id and the slot's label. |
| `DefaultRectangles.TableRows` | Overlay/rectangles_tables.py:50-75 | A table's 14 rows are consecutive. They carry its site, style and table_id and the expected labels in order. |
| `DefaultRectangles.LabelsUniqueWithinTable` | Overlay/rectangles_tables.py:62-70 | No two slots of a table carry the same label. |
| `DefaultRectangles.TableRowNamesDistinct` | Overlay/rectangles_tables.py:50-75 | In the initialised table, the 14 rows of any one table carry pairwise different labels. |
| `DefaultRectangles.ParentRow` | Overlay/rectangles_tables.py:54-59 | Each table's first row is its `table` parent. It is 800×600, at a drawn position within [0, 300]. |
| `DefaultRectangles.ChildRow` | Overlay/rectangles_tables.py:65-70 | Each child lies 10 to 100 right of and below its parent. It has its category's default size and label, and is never labelled `table`. |
| `DefaultRectangles.ChildrenPerCategory` | Overlay/rectangles_tables.py:62-64 | Each table has 2 children of each category, and 5 of `flop_turn_river`: 13 in all. |
| `DefaultRectangles.TableBlockTags` | Overlay/rectangles_tables.py:56-59 | Every row of a table's block carries that table's site, style and table_id. |
| `DefaultRectangles.OwnTableFetch` | Overlay/rectangles_tables.py:50-75 | Fetching a table's own site, style and table_id from its block returns all of its rows' projections, in slot order. |
| `DefaultRectangles.OtherTableFetch` | Overlay/rectangles_tables.py:50-75 | Fetching any other site, style or table_id from a table's block returns nothing. |
| `DefaultRectangles.FetchDefaultTable` | Overlay/rectangles_tables.py:50-75 | After initialisation, fetching a site, style and table_id returns exactly 14 rectangles. They carry the expected labels in order, each with its drawn geometry. |

## Left out

- PyQt widgets, layouts, style sheets, fonts, `resizeEvent` sizing and the save animation are not modelled. A button is its text and checked flag; the percentage label is the percentage value.
- Printed messages and the `%.2f` rendering of the percentage are not modelled.
- `float()` parsing is not modelled: `ApplyPercentage` receives `None` for text `float` rejects, or the parsed value. The texts `nan`, `inf` and `-inf` do parse. None of them is a key of `RANGES`, and each leaves the lower or the upper bracket of `get_hands_for_percentage` empty. So `max()` or `min()` raises `ValueError`, and the state is unchanged, exactly as for `None`. They are therefore passed as `None`.
- Floating-point rounding of the percentage and of `target / 100 * 1326` is not modelled. Keys of `RANGES` are compared as exact reals.
- The sqlite engine, connections, commits, the `created_at`/`updated_at` timestamps and the `AUTOINCREMENT` ids are not modelled. Query results are read in the table's insertion order, which SQL does not promise.
- `config.DB_PATH`, `range_data.RANGES` and the unseen schema of the `overlay` table are parameters. The unseen schema includes the column defaults `INSERT INTO overlay (id) VALUES (1)` fills in, and the assumption that `id` is unique.
- `OverlayDatabase.GetPreferences`: the column values of the row it inserts come from the `overlay` schema, which is not part of this model. They are the store's parameter `columnDefaults`.
- `RangeCalculator.InterpolateRanges`: requires both percentages to be keys, as the module's only caller ensures. A missing key would be a `KeyError` in the source.
- `RangeDatabase.RangeTable.LoadAllRanges`: returns the stored rows themselves. The sqlite error path when the table is missing returns `[]`; that is the same thing, because a missing table has no rows.
- `create_overlay_table`, `ensure_directory_exists` and `ensure_database_exists` are left out: they only prepare files and schema.
- `OverlayDatabase.OverlayStore` assumes that both the `overlay` and the `overlay_table` tables exist. None of `get_user_preferences`, `update_user_preferences`, `fetch_overlay_table_data`, `save_rectangle_position` or `initialize_default_rectangles` catches `sqlite3.Error`. With a table missing, they raise `OperationalError` to the caller. For `initialize_default_rectangles` this happens at the `DELETE` and the `with` block rolls back. Neither the exception nor the rollback is modelled.
- The application start-up script, the test helper and the Overlay window modules are left out: they are user interface or file plumbing.
- The card-detector scripts are left out. These are `card _detector/ai_detectetor/dataset/data_set_capture.py` and its variants (screen capture), `trier_doublons.py` (SSIM duplicate removal) and `tri_ai.py` (classifier routing). They do image processing and neural-network inference, and hold no range or keyed-store logic.
- The `RangeSelector` combo boxes are modelled as indexes into the position and range type lists. Their text is the entry at that index.
