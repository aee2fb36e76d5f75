/**
 * Hand-range arithmetic: how many of the 1326 two-card combinations a set of
 * starting hands covers, what share that is, and how a range for an
 * untabulated percentage is built from the two tabulated ranges around it.
 * The table of tabulated ranges is a parameter (`ranges`): a finite map from
 * a percentage to the set of hand names played at that percentage.
 */
module RangeCalculator {
  import opened Enumerations

  /** The number of two-card starting combinations in a 52-card deck. */
  const TotalCombinations: nat := 1326

  /** A Python `ValueError`, or a value. */
  datatype Result<T> = Ok(value: T) | ValueError

  datatype Kind = Pair | Suited | Offsuit

  /** The classification the calculator applies to a hand name: two characters make a pair, a trailing 's' a suited hand, anything else an offsuit hand. */
  function KindOf(hand: string): Kind
  {
    if |hand| == 2 then Pair
    else if |hand| > 0 && hand[|hand| - 1] == 's' then Suited
    else Offsuit
  }

  /** Combinations a hand stands for: 6 for a pair, 4 for a suited hand, 12 for an offsuit hand. */
  function Weight(hand: string): nat
  {
    match KindOf(hand)
    case Pair => 6
    case Suited => 4
    case Offsuit => 12
  }

  /** The combination count of a set of hands: the sum of their weights. */
  ghost function Combos(hands: set<string>): nat
  {
    if hands == {} then 0
    else
      var h :| h in hands;
      Weight(h) + Combos(hands - {h})
  }

  /** Any element can be taken out first: the sum does not depend on the order of the hands. */
  lemma {:induction false} CombosRemove(hands: set<string>, h: string)
    requires h in hands
    ensures Combos(hands) == Weight(h) + Combos(hands - {h})
    decreases |hands|
  {
    var y :| y in hands && Combos(hands) == Weight(y) + Combos(hands - {y});
    if y != h {
      CombosRemove(hands - {y}, h);
      CombosRemove(hands - {h}, y);
      assert hands - {y} - {h} == hands - {h} - {y};
    }
  }

  /** The empty range has no combination. */
  lemma CombosEmpty()
    ensures Combos({}) == 0
  {
  }

  /** The combination count is additive over disjoint sets of hands. */
  lemma {:induction false} CombosDisjointUnion(a: set<string>, b: set<string>)
    requires a !! b
    ensures Combos(a + b) == Combos(a) + Combos(b)
    decreases |a|
  {
    if a != {} {
      var x :| x in a;
      CombosRemove(a, x);
      CombosRemove(a + b, x);
      assert (a + b) - {x} == (a - {x}) + b;
      CombosDisjointUnion(a - {x}, b);
    } else {
      assert a + b == b;
    }
  }

  /** Adding hands never lowers the combination count. */
  lemma CombosMonotonic(a: set<string>, b: set<string>)
    requires a <= b
    ensures Combos(a) <= Combos(b)
  {
    assert b == a + (b - a);
    CombosDisjointUnion(a, b - a);
  }

  /** Adding one hand raises the count by at most that hand's weight (exactly it when the hand is new). */
  lemma CombosAddOne(a: set<string>, h: string)
    ensures h !in a ==> Combos(a + {h}) == Combos(a) + Weight(h)
    ensures Combos(a + {h}) <= Combos(a) + Weight(h)
  {
    if h in a {
      assert a + {h} == a;
    } else {
      CombosRemove(a + {h}, h);
      assert (a + {h}) - {h} == a;
    }
  }

  /** The sum of the weights of a list of hands, last one first. */
  function SumWeights(hands: seq<string>): nat
  {
    if hands == [] then 0 else SumWeights(hands[..|hands| - 1]) + Weight(hands[|hands| - 1])
  }

  /** Over a list without repetitions, the set's combination count is the list's weight sum. */
  lemma {:induction false} CombosOfDistinct(hands: seq<string>)
    requires Distinct(hands)
    ensures Combos(Elems(hands)) == SumWeights(hands)
  {
    if hands != [] {
      var init, last := hands[..|hands| - 1], hands[|hands| - 1];
      assert hands == init + [last];
      assert Distinct(init);
      CombosOfDistinct(init);
      assert last !in Elems(init);
      assert Elems(hands) == Elems(init) + {last};
      CombosAddOne(Elems(init), last);
    }
  }

  /** calculate_combinations: accumulates the weight of every hand of the set. */
  method CalculateCombinations(hands: set<string>) returns (total: nat)
    ensures total == Combos(hands)
  {
    total := 0;
    var rest := hands;
    while rest != {}
      invariant rest <= hands
      invariant total + Combos(rest) == Combos(hands)
      decreases rest
    {
      var hand :| hand in rest;
      CombosRemove(rest, hand);
      if |hand| == 2 {
        total := total + 6;
      } else if |hand| > 0 && hand[|hand| - 1] == 's' {
        total := total + 4;
      } else {
        total := total + 12;
      }
      rest := rest - {hand};
    }
  }

  /** The share of all combinations a range covers, in percent. */
  ghost function Percentage(hands: set<string>): real
  {
    (Combos(hands) as real / TotalCombinations as real) * 100.0
  }

  /** calculate_percentage: the combination count as a share of 1326, in percent; never negative. */
  method CalculatePercentage(hands: set<string>) returns (p: real)
    ensures p == Percentage(hands)
    ensures p * TotalCombinations as real == Combos(hands) as real * 100.0
    ensures 0.0 <= p
  {
    var combos := CalculateCombinations(hands);
    p := (combos as real / TotalCombinations as real) * 100.0;
  }

  /** Python's `int()` on a float: rounds toward zero. */
  function Truncate(x: real): (r: int)
    ensures 0.0 <= x ==> r as real <= x < r as real + 1.0
    ensures x < 0.0 ==> r as real - 1.0 < x <= r as real
  {
    if 0.0 <= x then x.Floor else -((-x).Floor)
  }

  /** The combination budget for a target percentage: `int(target / 100 * 1326)`. */
  function TargetCombinations(targetPercentage: real): int
  {
    Truncate(targetPercentage / 100.0 * TotalCombinations as real)
  }

  /**
   * How many leading candidates of `order` the greedy loop admits from `base`: it
   * stops at the first candidate whose weight would take the count above `target`.
   */
  ghost function Admitted(base: set<string>, order: seq<string>, target: int): (k: nat)
    ensures k <= |order|
    decreases |order|
  {
    if order == [] || Combos(base) + Weight(order[0]) > target then 0
    else 1 + Admitted(base + {order[0]}, order[1..], target)
  }

  /** The range the greedy loop returns when it visits the candidates in `order`. */
  ghost function GreedyFill(lower: set<string>, order: seq<string>, target: int): set<string>
  {
    lower + Elems(order[..Admitted(lower, order, target)])
  }

  /** `result` is what interpolate_ranges returns for some iteration order of `upper - lower`. */
  ghost predicate IsGreedyFill(lower: set<string>, upper: set<string>, target: int, result: set<string>)
  {
    exists order :: IsEnumeration(order, upper - lower) && result == GreedyFill(lower, order, target)
  }

  /** Every hand of `prefix` fitted under `target` when the loop considered it. */
  ghost predicate Fits(base: set<string>, prefix: seq<string>, target: int)
  {
    forall i :: 0 <= i < |prefix| ==> Combos(base + Elems(prefix[..i])) + Weight(prefix[i]) <= target
  }

  /** A fitting prefix, split at its first hand: that hand fitted on the base, and the rest fits on the base with it. */
  lemma FitsUncons(base: set<string>, prefix: seq<string>, target: int)
    requires prefix != [] && Fits(base, prefix, target)
    ensures Combos(base) + Weight(prefix[0]) <= target
    ensures Fits(base + {prefix[0]}, prefix[1..], target)
  {
    var h, rest := prefix[0], prefix[1..];
    assert prefix[..0] == [];
    assert base + Elems(prefix[..0]) == base;
    forall i | 0 <= i < |rest|
      ensures Combos(base + {h} + Elems(rest[..i])) + Weight(rest[i]) <= target
    {
      assert prefix[..i + 1] == [h] + rest[..i];
      ElemsCons(h, rest[..i]);
      assert base + {h} + Elems(rest[..i]) == base + Elems(prefix[..i + 1]);
      assert rest[i] == prefix[i + 1];
    }
  }

  /** A hand that fits on the base, followed by a prefix that fits on the base with it, fits. */
  lemma FitsCons(base: set<string>, h: string, rest: seq<string>, target: int)
    requires Combos(base) + Weight(h) <= target
    requires Fits(base + {h}, rest, target)
    ensures Fits(base, [h] + rest, target)
  {
    var p := [h] + rest;
    forall i | 0 <= i < |p| ensures Combos(base + Elems(p[..i])) + Weight(p[i]) <= target {
      if i == 0 {
        assert p[..0] == [];
        assert base + Elems(p[..0]) == base;
      } else {
        assert p[..i] == [h] + rest[..i - 1];
        ElemsCons(h, rest[..i - 1]);
        assert base + Elems(p[..i]) == base + {h} + Elems(rest[..i - 1]);
        assert p[i] == rest[i - 1];
      }
    }
  }

  /** A first candidate that fits is admitted, and the loop goes on from the base with it. */
  lemma AdmittedCons(base: set<string>, order: seq<string>, target: int)
    requires order != [] && Combos(base) + Weight(order[0]) <= target
    ensures Admitted(base, order, target) == 1 + Admitted(base + {order[0]}, order[1..], target)
  {
  }

  /** When the first candidate is admitted, the fill is the fill of the remaining candidates from the base with it. */
  lemma GreedyFillCons(lower: set<string>, order: seq<string>, target: int)
    requires order != [] && Combos(lower) + Weight(order[0]) <= target
    ensures Admitted(lower, order, target) == 1 + Admitted(lower + {order[0]}, order[1..], target)
    ensures GreedyFill(lower, order, target) == GreedyFill(lower + {order[0]}, order[1..], target)
  {
    var h, rest := order[0], order[1..];
    AdmittedCons(lower, order, target);
    var k' := Admitted(lower + {h}, rest, target);
    assert order[..1 + k'] == [h] + rest[..k'];
    ElemsCons(h, rest[..k']);
  }

  /** A prefix that fitted, followed by an overshooting candidate or by nothing, is exactly what is admitted. */
  lemma {:induction false} AdmittedFittingPrefix(base: set<string>, prefix: seq<string>, tail: seq<string>, target: int)
    requires Fits(base, prefix, target)
    requires tail == [] || Combos(base + Elems(prefix)) + Weight(tail[0]) > target
    ensures Admitted(base, prefix + tail, target) == |prefix|
    decreases |prefix|
  {
    if prefix == [] {
      assert prefix + tail == tail;
      assert base + Elems(prefix) == base;
    } else {
      var h, rest := prefix[0], prefix[1..];
      var order := prefix + tail;
      FitsUncons(base, prefix, target);
      assert prefix == [h] + rest;
      ElemsCons(h, rest);
      assert base + {h} + Elems(rest) == base + Elems(prefix);
      AdmittedFittingPrefix(base + {h}, rest, tail, target);
      ConcatTail(prefix, tail);
      AdmittedCons(base, order, target);
    }
  }

  /** A fitting prefix stays fitting when a hand that fits is appended. */
  lemma FitsExtend(base: set<string>, prefix: seq<string>, h: string, target: int)
    requires Fits(base, prefix, target)
    requires Combos(base + Elems(prefix)) + Weight(h) <= target
    ensures Fits(base, prefix + [h], target)
  {
    var p := prefix + [h];
    forall i | 0 <= i < |p| ensures Combos(base + Elems(p[..i])) + Weight(p[i]) <= target {
      if i < |prefix| {
        assert p[..i] == prefix[..i];
      } else {
        assert p[..i] == prefix;
      }
    }
  }

  /**
   * The loop breaks at the first overshoot: every admitted candidate fitted
   * when it was considered, and the first one refused would have overshot.
   */
  lemma {:induction false} AdmittedStopsAtFirstOvershoot(lower: set<string>, order: seq<string>, target: int)
    ensures Fits(lower, order[..Admitted(lower, order, target)], target)
    ensures Admitted(lower, order, target) < |order| ==>
      Combos(GreedyFill(lower, order, target)) + Weight(order[Admitted(lower, order, target)]) > target
    decreases |order|
  {
    var k := Admitted(lower, order, target);
    if k == 0 {
      assert order[..0] == [];
      assert GreedyFill(lower, order, target) == lower;
    } else {
      var h, rest := order[0], order[1..];
      GreedyFillCons(lower, order, target);
      AdmittedStopsAtFirstOvershoot(lower + {h}, rest, target);
      var k' := Admitted(lower + {h}, rest, target);
      FitsCons(lower, h, rest[..k'], target);
      ConsPrefix(order, k);
    }
  }

  /** Nothing is skipped: a candidate after the stopping point is not in the result. */
  lemma GreedyFillTakesPrefixOnly(lower: set<string>, order: seq<string>, target: int)
    requires Distinct(order) && Elems(order) !! lower
    ensures forall i :: Admitted(lower, order, target) <= i < |order| ==> order[i] !in GreedyFill(lower, order, target)
  {
    var k := Admitted(lower, order, target);
    forall i | k <= i < |order| ensures order[i] !in GreedyFill(lower, order, target) {
      assert order[i] in Elems(order);
      assert forall j :: 0 <= j < k ==> order[..k][j] == order[j] != order[i];
    }
  }

  /** Once at least one candidate is admitted, the range stays within the combination budget. */
  lemma {:induction false} GreedyFillWithinTarget(lower: set<string>, order: seq<string>, target: int)
    requires Admitted(lower, order, target) > 0
    ensures Combos(GreedyFill(lower, order, target)) <= target
    decreases |order|
  {
    var h, rest := order[0], order[1..];
    GreedyFillCons(lower, order, target);
    CombosAddOne(lower, h);
    if Admitted(lower + {h}, rest, target) > 0 {
      GreedyFillWithinTarget(lower + {h}, rest, target);
    } else {
      assert rest[..0] == [];
      assert GreedyFill(lower + {h}, rest, target) == lower + {h};
    }
  }

  /** What the greedy loop returns keeps the lower range, adds only hands of the upper one, and, once it adds any, keeps within the budget. */
  lemma GreedyFillProperties(lower: set<string>, upper: set<string>, target: int, result: set<string>)
    requires IsGreedyFill(lower, upper, target, result)
    ensures lower <= result <= lower + upper
    ensures result != lower ==> Combos(result) <= target
  {
    var order :| IsEnumeration(order, upper - lower) && result == GreedyFill(lower, order, target);
    var k := Admitted(lower, order, target);
    assert Elems(order[..k]) <= Elems(order);
    if k == 0 {
      assert order[..0] == [];
      assert result == lower;
    } else {
      GreedyFillWithinTarget(lower, order, target);
    }
  }

  /** The loop ran out of candidates: the hands it added, in the order it added them, are one iteration order. */
  lemma ExhaustedLoopIsGreedyFill(lower: set<string>, upper: set<string>, additional: seq<string>, target: int)
    requires Distinct(additional) && Elems(additional) == upper - lower
    requires Fits(lower, additional, target)
    ensures IsGreedyFill(lower, upper, target, lower + Elems(additional))
  {
    assert additional + [] == additional;
    AdmittedFittingPrefix(lower, additional, [], target);
    assert additional[..|additional|] == additional;
    assert lower + Elems(additional) == GreedyFill(lower, additional, target);
  }

  /** The hands added, then the refused one, then the unvisited rest, enumerate the candidates. */
  lemma BrokenLoopOrder(candidates: set<string>, additional: seq<string>, rest: set<string>, stopper: string)
    returns (order: seq<string>)
    requires Distinct(additional) && rest !! Elems(additional) && rest + Elems(additional) == candidates
    requires stopper in rest
    ensures IsEnumeration(order, candidates)
    ensures |order| > |additional| && order[..|additional|] == additional && order[|additional|] == stopper
    ensures order == additional + order[|additional|..]
  {
    var tail := Enumerate(rest - {stopper});
    EnumerationCons(stopper, tail, rest);
    var after := [stopper] + tail;
    assert Elems(after) == rest;
    DistinctConcat(additional, after);
    order := additional + after;
    assert Elems(order) == Elems(additional) + rest;
    ConcatSplit(additional, after);
    assert order[|additional|] == after[0];
  }

  /** The loop broke at `stopper`: what it returns is the greedy fill for the order it followed. */
  lemma BrokenLoopIsGreedyFill(lower: set<string>, upper: set<string>, additional: seq<string>,
                               rest: set<string>, stopper: string, target: int)
    requires Distinct(additional) && rest !! Elems(additional) && rest + Elems(additional) == upper - lower
    requires Fits(lower, additional, target)
    requires stopper in rest && Combos(lower + Elems(additional)) + Weight(stopper) > target
    ensures IsGreedyFill(lower, upper, target, lower + Elems(additional))
  {
    var order := BrokenLoopOrder(upper - lower, additional, rest, stopper);
    var after := order[|additional|..];
    assert after[0] == stopper;
    AdmittedFittingPrefix(lower, additional, after, target);
    assert lower + Elems(additional) == GreedyFill(lower, order, target);
  }

  /**
   * interpolate_ranges: starting from the lower tabulated range, adds the hands
   * of the upper range that the lower one lacks, in the set's iteration order,
   * until the next one would take the count above `int(target / 100 * 1326)`.
   */
  method InterpolateRanges(ranges: map<real, set<string>>, lowerPercentage: real, upperPercentage: real, targetPercentage: real)
    returns (result: set<string>)
    requires lowerPercentage in ranges && upperPercentage in ranges
    ensures IsGreedyFill(ranges[lowerPercentage], ranges[upperPercentage], TargetCombinations(targetPercentage), result)
    ensures ranges[lowerPercentage] <= result <= ranges[lowerPercentage] + ranges[upperPercentage]
    ensures result != ranges[lowerPercentage] ==> Combos(result) <= TargetCombinations(targetPercentage)
  {
    var lower := ranges[lowerPercentage];
    var upper := ranges[upperPercentage];
    var target := TargetCombinations(targetPercentage);
    var additional: seq<string> := [];
    var rest := upper - lower;
    ghost var broke := false;
    ghost var stopper: string := "";
    while rest != {}
      invariant rest !! Elems(additional)
      invariant rest + Elems(additional) == upper - lower
      invariant Distinct(additional)
      invariant Fits(lower, additional, target)
      decreases rest
    {
      var hand :| hand in rest;
      var weight := Weight(hand);
      var current := CalculateCombinations(lower + Elems(additional));
      if current + weight > target {
        broke, stopper := true, hand;
        break;
      }
      FitsExtend(lower, additional, hand, target);
      assert Elems(additional + [hand]) == Elems(additional) + {hand};
      additional := additional + [hand];
      rest := rest - {hand};
    }
    result := lower + Elems(additional);
    if broke {
      BrokenLoopIsGreedyFill(lower, upper, additional, rest, stopper, target);
    } else {
      ExhaustedLoopIsGreedyFill(lower, upper, additional, target);
    }
    GreedyFillProperties(lower, upper, target, result);
  }

  /** `lo` is the largest tabulated percentage below `p`. */
  ghost predicate IsLowerBracket(ranges: map<real, set<string>>, p: real, lo: real)
  {
    lo in ranges && lo < p && forall k :: k in ranges && k < p ==> k <= lo
  }

  /** `hi` is the smallest tabulated percentage above `p`. */
  ghost predicate IsUpperBracket(ranges: map<real, set<string>>, p: real, hi: real)
  {
    hi in ranges && p < hi && forall k :: k in ranges && p < k ==> hi <= k
  }

  /** Some tabulated percentage lies below `p` and some above it, so `max` and `min` both have candidates. */
  ghost predicate HasBrackets(ranges: map<real, set<string>>, p: real)
  {
    (exists k :: k in ranges && k < p) && (exists k :: k in ranges && p < k)
  }

  /** `hands` is a range get_hands_for_percentage may return for `p`: the tabulated one, or a greedy fill between the brackets. */
  ghost predicate IsHandsForPercentage(ranges: map<real, set<string>>, p: real, hands: set<string>)
  {
    if p in ranges then hands == ranges[p]
    else
      exists lo, hi :: IsLowerBracket(ranges, p, lo) && IsUpperBracket(ranges, p, hi)
        && IsGreedyFill(ranges[lo], ranges[hi], TargetCombinations(p), hands)
  }

  /** Every range get_hands_for_percentage can return is drawn from the tabulated ranges. */
  lemma HandsForPercentageWithin(ranges: map<real, set<string>>, p: real, hands: set<string>, universe: set<string>)
    requires forall k :: k in ranges ==> ranges[k] <= universe
    requires IsHandsForPercentage(ranges, p, hands)
    ensures hands <= universe
  {
    if p !in ranges {
      var lo, hi :| IsLowerBracket(ranges, p, lo) && IsUpperBracket(ranges, p, hi)
        && IsGreedyFill(ranges[lo], ranges[hi], TargetCombinations(p), hands);
      GreedyFillProperties(ranges[lo], ranges[hi], TargetCombinations(p), hands);
    }
  }

  /** A finite set of percentages holding `x` has a largest element (so Python's `max` succeeds). */
  lemma {:induction false} HasMaximum(s: set<real>, x: real)
    requires x in s
    ensures exists m :: m in s && forall k :: k in s ==> k <= m
    decreases |s|
  {
    var s' := s - {x};
    if exists y :: y in s' {
      var y :| y in s';
      HasMaximum(s', y);
      var m :| m in s' && forall k :: k in s' ==> k <= m;
      var best := if x <= m then m else x;
      forall k | k in s ensures k <= best {
        if k != x { assert k in s'; }
      }
    } else {
      forall k | k in s ensures k <= x {
        assert k == x || k in s';
      }
    }
  }

  /** A finite set of percentages holding `x` has a smallest element (so Python's `min` succeeds). */
  lemma {:induction false} HasMinimum(s: set<real>, x: real)
    requires x in s
    ensures exists m :: m in s && forall k :: k in s ==> m <= k
    decreases |s|
  {
    var s' := s - {x};
    if exists y :: y in s' {
      var y :| y in s';
      HasMinimum(s', y);
      var m :| m in s' && forall k :: k in s' ==> m <= k;
      var best := if m <= x then m else x;
      forall k | k in s ensures best <= k {
        if k != x { assert k in s'; }
      }
    } else {
      forall k | k in s ensures x <= k {
        assert k == x || k in s';
      }
    }
  }

  /**
   * get_hands_for_percentage: a tabulated percentage gives its range; any other
   * is interpolated between the nearest tabulated percentages below and above,
   * and a percentage with no tabulated one on either side raises `ValueError`
   * (the `max` or `min` of an empty sequence).
   */
  method GetHandsForPercentage(ranges: map<real, set<string>>, percentage: real) returns (r: Result<set<string>>)
    ensures percentage in ranges ==> r == Ok(ranges[percentage])
    ensures r == ValueError <==> percentage !in ranges && !HasBrackets(ranges, percentage)
    ensures r.Ok? ==> IsHandsForPercentage(ranges, percentage, r.value)
    ensures percentage !in ranges && r.Ok? ==>
      exists lo, hi :: IsLowerBracket(ranges, percentage, lo) && IsUpperBracket(ranges, percentage, hi)
        && IsGreedyFill(ranges[lo], ranges[hi], TargetCombinations(percentage), r.value)
        && ranges[lo] <= r.value <= ranges[lo] + ranges[hi]
  {
    if percentage in ranges {
      return Ok(ranges[percentage]);
    }
    if !(exists k :: k in ranges && k < percentage) || !(exists k :: k in ranges && percentage < k) {
      return ValueError;
    }
    var below := set k | k in ranges && k < percentage;
    var above := set k | k in ranges && percentage < k;
    var someBelow :| someBelow in ranges && someBelow < percentage;
    var someAbove :| someAbove in ranges && percentage < someAbove;
    HasMaximum(below, someBelow);
    var lo :| lo in below && forall k :: k in below ==> k <= lo;
    HasMinimum(above, someAbove);
    var hi :| hi in above && forall k :: k in above ==> hi <= k;
    forall k | k in ranges && k < percentage ensures k <= lo { assert k in below; }
    forall k | k in ranges && percentage < k ensures hi <= k { assert k in above; }
    assert IsLowerBracket(ranges, percentage, lo);
    assert IsUpperBracket(ranges, percentage, hi);
    var hands := InterpolateRanges(ranges, lo, hi, percentage);
    r := Ok(hands);
  }
}
