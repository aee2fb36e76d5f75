/**
 * The 13x13 grid of starting-hand names the range selector shows: ranks run
 * from ace to deuce along both axes, pairs sit on the diagonal, suited hands
 * above it and offsuit hands below it.
 */
module HandGrid {
  import opened Enumerations
  import opened RangeCalculator

  /** The ranks, strongest first. */
  const Ranks: string := "AKQJT98765432"

  lemma RanksDistinct()
    ensures |Ranks| == 13
    ensures forall a, b :: 0 <= a < 13 && 0 <= b < 13 && Ranks[a] == Ranks[b] ==> a == b
  {
  }

  /** The name in row `i`, column `j`: a pair, a suited hand (`i < j`) or an offsuit hand (`i > j`), higher rank first. */
  function HandName(i: nat, j: nat): string
    requires i < 13 && j < 13
  {
    if i == j then [Ranks[i], Ranks[j]]
    else if i < j then [Ranks[i], Ranks[j], 's']
    else [Ranks[j], Ranks[i], 'o']
  }

  /** Row `i` of the grid. */
  function Row(i: nat): seq<string>
    requires i < 13
  {
    seq(13, j requires 0 <= j < 13 => HandName(i, j))
  }

  /** The whole grid, row by row. */
  function HandsGrid(): seq<seq<string>>
  {
    seq(13, i requires 0 <= i < 13 => Row(i))
  }

  /** The set of hand names the grid holds. */
  ghost function GridHands(): set<string>
  {
    set i, j | 0 <= i < 13 && 0 <= j < 13 :: HandName(i, j)
  }

  /** generate_hands_grid: builds the grid row by row, appending one name per column. */
  method GenerateHandsGrid() returns (grid: seq<seq<string>>)
    ensures grid == HandsGrid()
    ensures |grid| == 13 && forall i :: 0 <= i < 13 ==> |grid[i]| == 13
  {
    grid := [];
    var i := 0;
    while i < 13
      invariant 0 <= i <= 13
      invariant grid == HandsGrid()[..i]
    {
      var row: seq<string> := [];
      var j := 0;
      while j < 13
        invariant 0 <= j <= 13
        invariant row == Row(i)[..j]
      {
        var hand: string;
        if i == j {
          hand := [Ranks[i], Ranks[j]];
        } else if i < j {
          hand := [Ranks[i], Ranks[j], 's'];
        } else {
          hand := [Ranks[j], Ranks[i], 'o'];
        }
        assert Row(i)[..j + 1] == Row(i)[..j] + [hand];
        row := row + [hand];
        j := j + 1;
      }
      assert row == Row(i);
      assert HandsGrid()[..i + 1] == HandsGrid()[..i] + [row];
      grid := grid + [row];
      i := i + 1;
    }
  }

  /** The calculator classifies every grid name as the grid's layout says: pair on the diagonal, suited above, offsuit below. */
  lemma HandNameKind(i: nat, j: nat)
    requires i < 13 && j < 13
    ensures KindOf(HandName(i, j)) == if i == j then Pair else if i < j then Suited else Offsuit
    ensures Weight(HandName(i, j)) == if i == j then 6 else if i < j then 4 else 12
  {
  }

  /** The higher rank comes first, and cells mirrored across the diagonal name the same two ranks. */
  lemma HandNameRanks(i: nat, j: nat)
    requires i < 13 && j < 13
    ensures |HandName(i, j)| >= 2
    ensures HandName(i, j)[0] == Ranks[if i <= j then i else j]
    ensures HandName(i, j)[1] == Ranks[if i <= j then j else i]
    ensures HandName(i, j)[..2] == HandName(j, i)[..2]
  {
  }

  /** No two cells carry the same name. */
  lemma HandNameInjective(i: nat, j: nat, i': nat, j': nat)
    requires i < 13 && j < 13 && i' < 13 && j' < 13
    requires HandName(i, j) == HandName(i', j')
    ensures i == i' && j == j'
  {
    RanksDistinct();
    var h, h' := HandName(i, j), HandName(i', j');
    assert h[0] == h'[0] && h[1] == h'[1] && |h| == |h'|;
    if i != j && i' != j' {
      assert h[2] == h'[2];
    }
  }

  lemma DivMod13(q: int, r: int)
    requires 0 <= r < 13
    ensures (13 * q + r) / 13 == q && (13 * q + r) % 13 == r
  {
  }

  /** Position `k` of the flattened grid is row `k / 13`, column `k % 13`. */
  lemma {:induction false} FlattenIndex(grid: seq<seq<string>>)
    requires forall r :: 0 <= r < |grid| ==> |grid[r]| == 13
    ensures |Flatten(grid)| == 13 * |grid|
    ensures forall k :: 0 <= k < 13 * |grid| ==> Flatten(grid)[k] == grid[k / 13][k % 13]
  {
    if grid != [] {
      var n := |grid| - 1;
      var init := grid[..n];
      FlattenIndex(init);
      var flat := Flatten(grid);
      assert flat == Flatten(init) + grid[n];
      forall k | 0 <= k < 13 * |grid| ensures flat[k] == grid[k / 13][k % 13] {
        var q, r := k / 13, k % 13;
        assert k == 13 * q + r;
        if k < 13 * n {
          assert q < n;
          assert flat[k] == Flatten(init)[k];
        } else {
          DivMod13(n, k - 13 * n);
          assert flat[k] == grid[n][k - 13 * n];
        }
      }
    }
  }

  /** The flattened grid: cell `(i, j)` at position `13 * i + j`. */
  lemma FlatGrid()
    ensures |Flatten(HandsGrid())| == 169
    ensures forall k :: 0 <= k < 169 ==> Flatten(HandsGrid())[k] == HandName(k / 13, k % 13)
  {
    FlattenIndex(HandsGrid());
  }

  /** The flattened grid lists the grid's 169 names without repetition. */
  lemma FlatGridEnumeratesGrid()
    ensures IsEnumeration(Flatten(HandsGrid()), GridHands())
  {
    var flat := Flatten(HandsGrid());
    FlatGrid();
    forall a, b | 0 <= a < b < |flat| ensures flat[a] != flat[b] {
      if flat[a] == flat[b] {
        HandNameInjective(a / 13, a % 13, b / 13, b % 13);
      }
    }
    forall h | h in GridHands() ensures h in Elems(flat) {
      var i, j :| 0 <= i < 13 && 0 <= j < 13 && h == HandName(i, j);
      DivMod13(i, j);
      assert flat[13 * i + j] == h;
    }
    forall h | h in Elems(flat) ensures h in GridHands() {
      var k :| 0 <= k < |flat| && flat[k] == h;
      assert HandName(k / 13, k % 13) == h;
    }
  }

  /** How many of a list of hands the calculator classifies as `kind`. */
  function CountKind(hands: seq<string>, kind: Kind): nat
  {
    if hands == [] then 0
    else CountKind(hands[..|hands| - 1], kind) + (if KindOf(hands[|hands| - 1]) == kind then 1 else 0)
  }

  lemma {:induction false} CountKindConcat(a: seq<string>, b: seq<string>, kind: Kind)
    ensures CountKind(a + b, kind) == CountKind(a, kind) + CountKind(b, kind)
    decreases |b|
  {
    if b == [] {
      assert a + b == a;
    } else {
      var b' := b[..|b| - 1];
      assert (a + b)[..|a + b| - 1] == a + b';
      CountKindConcat(a, b', kind);
    }
  }

  /** A list's weight sum is 6 per pair, 4 per suited hand and 12 per offsuit hand. */
  lemma {:induction false} SumWeightsByKind(hands: seq<string>)
    ensures SumWeights(hands) == 6 * CountKind(hands, Pair) + 4 * CountKind(hands, Suited) + 12 * CountKind(hands, Offsuit)
  {
    if hands != [] {
      SumWeightsByKind(hands[..|hands| - 1]);
    }
  }

  /** The first `n` cells of row `i`: one pair once past the diagonal, the offsuit cells left of it, the suited cells right of it. */
  lemma {:induction false} RowPrefixCounts(i: nat, n: nat)
    requires i < 13 && n <= 13
    ensures CountKind(Row(i)[..n], Pair) == if n > i then 1 else 0
    ensures CountKind(Row(i)[..n], Suited) == if n > i + 1 then n - i - 1 else 0
    ensures CountKind(Row(i)[..n], Offsuit) == if n < i then n else i
  {
    if n > 0 {
      assert Row(i)[..n][..n - 1] == Row(i)[..n - 1];
      RowPrefixCounts(i, n - 1);
      HandNameKind(i, n - 1);
    }
  }

  /** The first `m` rows of the grid. */
  function Rows(m: nat): seq<seq<string>>
    requires m <= 13
  {
    seq(m, i requires 0 <= i < m => Row(i))
  }

  /** Taking one more row of the grid appends that row to the flattened prefix. */
  lemma FlattenRowsStep(m: nat)
    requires 0 < m <= 13
    ensures Flatten(Rows(m)) == Flatten(Rows(m - 1)) + Row(m - 1)
  {
    assert Rows(m)[..m - 1] == Rows(m - 1);
  }

  /** The first `m` rows together: `m` pairs, and the suited and offsuit cells of the upper and lower triangles. */
  lemma {:induction false} GridPrefixCounts(m: nat)
    requires m <= 13
    ensures CountKind(Flatten(Rows(m)), Pair) == m
    ensures 2 * CountKind(Flatten(Rows(m)), Suited) == 25 * m - m * m
    ensures 2 * CountKind(Flatten(Rows(m)), Offsuit) == m * m - m
  {
    if m > 0 {
      var p := m - 1;
      var before := Flatten(Rows(p));
      FlattenRowsStep(m);
      assert Row(p)[..13] == Row(p);
      GridPrefixCounts(p);
      RowPrefixCounts(p, 13);
      CountKindConcat(before, Row(p), Pair);
      CountKindConcat(before, Row(p), Suited);
      CountKindConcat(before, Row(p), Offsuit);
      TriangleStep(p, CountKind(before, Suited), CountKind(before, Offsuit));
    }
  }

  lemma TriangleStep(p: nat, s: int, o: int)
    requires 2 * s == 25 * p - p * p && 2 * o == p * p - p
    ensures 2 * (s + 12 - p) == 25 * (p + 1) - (p + 1) * (p + 1)
    ensures 2 * (o + p) == (p + 1) * (p + 1) - (p + 1)
  {
    assert (p + 1) * (p + 1) == p * p + 2 * p + 1;
  }

  /** The hands of a given kind in a set. */
  ghost function KindSet(hands: set<string>, kind: Kind): set<string>
  {
    set h | h in hands && KindOf(h) == kind
  }

  lemma KindSetAdd(hands: set<string>, h: string, kind: Kind)
    ensures KindSet(hands + {h}, kind) == if KindOf(h) == kind then KindSet(hands, kind) + {h} else KindSet(hands, kind)
  {
  }

  /** Over a list without repetitions, the set holds as many hands of each kind as the list. */
  lemma {:induction false} KindSetOfDistinct(hands: seq<string>, kind: Kind)
    requires Distinct(hands)
    ensures |KindSet(Elems(hands), kind)| == CountKind(hands, kind)
  {
    if hands != [] {
      var init, last := hands[..|hands| - 1], hands[|hands| - 1];
      assert hands == init + [last];
      assert Distinct(init);
      KindSetOfDistinct(init, kind);
      assert last !in Elems(init);
      assert Elems(hands) == Elems(init) + {last};
      KindSetAdd(Elems(init), last, kind);
      assert last !in KindSet(Elems(init), kind);
    }
  }

  /**
   * The grid names 169 distinct hands: 13 pairs, 78 suited and 78 offsuit.
   * Their weights add up to all 1326 combinations.
   */
  lemma GridCounts()
    ensures |GridHands()| == 169
    ensures |KindSet(GridHands(), Pair)| == 13
    ensures |KindSet(GridHands(), Suited)| == 78
    ensures |KindSet(GridHands(), Offsuit)| == 78
    ensures Combos(GridHands()) == TotalCombinations
  {
    var flat := Flatten(HandsGrid());
    FlatGridEnumeratesGrid();
    FlatGrid();
    DistinctCardinality(flat);
    assert Rows(13) == HandsGrid();
    GridPrefixCounts(13);
    KindSetOfDistinct(flat, Pair);
    KindSetOfDistinct(flat, Suited);
    KindSetOfDistinct(flat, Offsuit);
    SumWeightsByKind(flat);
    CombosOfDistinct(flat);
  }

  /** Any selection of grid hands covers between 0% and 100% of the combinations; the whole grid covers exactly 100%. */
  lemma GridPercentageBounds(hands: set<string>)
    requires hands <= GridHands()
    ensures 0.0 <= Percentage(hands) <= 100.0
    ensures Percentage(GridHands()) == 100.0
  {
    GridCounts();
    CombosMonotonic(hands, GridHands());
  }
}
