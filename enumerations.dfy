/**
 * Sequences as enumerations of sets. Python iterates a set (or converts it with
 * `list(...)`) in an order the program does not control; the model names such
 * an order explicitly as a duplicate-free sequence holding exactly the set.
 */
module Enumerations {

  /** The elements of a sequence, as a set (Python's `set(xs)`). */
  function Elems<T>(s: seq<T>): set<T>
  {
    set x | x in s
  }

  /** No element occurs twice. */
  predicate Distinct<T(==)>(s: seq<T>)
  {
    forall i, j :: 0 <= i < j < |s| ==> s[i] != s[j]
  }

  /** `order` lists every element of `s` exactly once. */
  predicate IsEnumeration<T(==)>(order: seq<T>, s: set<T>)
  {
    Distinct(order) && Elems(order) == s
  }

  /** Some enumeration of a finite set: one of the orders a Python loop over it may take. */
  ghost function Enumerate<T>(s: set<T>): (order: seq<T>)
    ensures IsEnumeration(order, s)
    ensures |order| == |s|
  {
    if s == {} then []
    else
      var x :| x in s;
      var rest := Enumerate(s - {x});
      EnumerationCons(x, rest, s);
      [x] + rest
  }

  lemma ElemsCons<T>(x: T, s: seq<T>)
    ensures Elems([x] + s) == {x} + Elems(s)
  {
  }

  lemma ConcatTail<T>(a: seq<T>, b: seq<T>)
    requires a != []
    ensures (a + b)[0] == a[0] && (a + b)[1..] == a[1..] + b
  {
  }

  lemma ConcatSplit<T>(a: seq<T>, b: seq<T>)
    ensures (a + b)[..|a|] == a && (a + b)[|a|..] == b
  {
  }

  /** A non-empty prefix is the first element followed by a prefix of the rest. */
  lemma ConsPrefix<T>(s: seq<T>, k: nat)
    requires 0 < k <= |s|
    ensures s[..k] == [s[0]] + s[1..][..k - 1]
    ensures k < |s| ==> s[k] == s[1..][k - 1]
  {
  }

  /** Blocks laid end to end (the rows of a grid, the tables of a layout). */
  function Flatten<T>(blocks: seq<seq<T>>): seq<T>
  {
    if blocks == [] then [] else Flatten(blocks[..|blocks| - 1]) + blocks[|blocks| - 1]
  }

  /** One more block. */
  lemma FlattenStep<T>(blocks: seq<seq<T>>, k: nat)
    requires k < |blocks|
    ensures Flatten(blocks[..k + 1]) == Flatten(blocks[..k]) + blocks[k]
  {
    assert blocks[..k + 1][..k] == blocks[..k];
  }

  /** Blocks of one length `n`: position `n * j + m` is position `m` of block `j`. */
  lemma {:induction false} FlattenUniform<T>(blocks: seq<seq<T>>, n: nat, j: nat, m: nat)
    requires forall b :: 0 <= b < |blocks| ==> |blocks[b]| == n
    requires j < |blocks| && m < n
    ensures |Flatten(blocks)| == n * |blocks|
    ensures n * j + m < |Flatten(blocks)| && Flatten(blocks)[n * j + m] == blocks[j][m]
  {
    var last := |blocks| - 1;
    var init := blocks[..last];
    assert Flatten(blocks) == Flatten(init) + blocks[last];
    if j == last {
      FlattenLength(init, n);
    } else {
      FlattenUniform(init, n, j, m);
    }
  }

  lemma {:induction false} FlattenLength<T>(blocks: seq<seq<T>>, n: nat)
    requires forall b :: 0 <= b < |blocks| ==> |blocks[b]| == n
    ensures |Flatten(blocks)| == n * |blocks|
  {
    if blocks != [] {
      var init := blocks[..|blocks| - 1];
      FlattenLength(init, n);
      assert |Flatten(blocks)| == |Flatten(init)| + n;
      assert n * |blocks| == n * |init| + n;
    }
  }

  /** The next element of `block` extends a prefix of `block` that follows `before`. */
  lemma PrefixStep<T>(before: seq<T>, block: seq<T>, k: nat)
    requires k < |block|
    ensures (before + block[..k]) + [block[k]] == before + block[..k + 1]
  {
    assert block[..k + 1] == block[..k] + [block[k]];
  }

  lemma AppendAssoc<T>(a: seq<T>, b: seq<T>, c: seq<T>)
    ensures (a + b) + c == a + (b + c)
  {
  }

  /** Some element of a non-empty set. */
  lemma Pick<T>(s: set<T>) returns (x: T)
    requires s != {}
    ensures x in s
  {
    x :| x in s;
  }

  /** `s` with every element moved up by one. */
  function Shifted(s: set<int>): set<int>
  {
    set i | i in s :: i + 1
  }

  /** Shifting a set of positions keeps its size. */
  lemma {:induction false} ShiftedCardinality(s: set<int>)
    ensures |Shifted(s)| == |s|
  {
    if s == {} {
      assert Shifted(s) == {};
    } else {
      var x := Pick(s);
      var rest := s - {x};
      ShiftedCardinality(rest);
      forall i | i in Shifted(s) ensures i in Shifted(rest) + {x + 1} {
        var j :| j in s && i == j + 1;
        if j != x {
          assert j in rest;
        }
      }
      assert x + 1 in Shifted(s);
      assert Shifted(s) == Shifted(rest) + {x + 1};
      assert x + 1 !in Shifted(rest);
    }
  }

  /** An element followed by an enumeration of the rest enumerates the set. */
  lemma EnumerationCons<T>(x: T, tail: seq<T>, s: set<T>)
    requires x in s && IsEnumeration(tail, s - {x})
    ensures IsEnumeration([x] + tail, s)
  {
    ElemsCons(x, tail);
    forall i, j | 0 <= i < j < |[x] + tail| ensures ([x] + tail)[i] != ([x] + tail)[j] {
      if i == 0 {
        assert ([x] + tail)[j] == tail[j - 1];
        assert tail[j - 1] in Elems(tail);
      } else {
        assert ([x] + tail)[i] == tail[i - 1] && ([x] + tail)[j] == tail[j - 1];
      }
    }
  }

  /** Two duplicate-free sequences with no common element concatenate to a duplicate-free one. */
  lemma DistinctConcat<T>(a: seq<T>, b: seq<T>)
    requires Distinct(a) && Distinct(b) && Elems(a) !! Elems(b)
    ensures Distinct(a + b)
    ensures Elems(a + b) == Elems(a) + Elems(b)
  {
    forall i, j | 0 <= i < j < |a + b| ensures (a + b)[i] != (a + b)[j] {
      if j < |a| {
      } else if i >= |a| {
        assert (a + b)[i] == b[i - |a|] && (a + b)[j] == b[j - |a|];
      } else {
        assert (a + b)[i] in Elems(a) && (a + b)[j] in Elems(b);
      }
    }
  }

  /** A duplicate-free sequence has as many elements as its set. */
  lemma {:induction false} DistinctCardinality<T>(s: seq<T>)
    requires Distinct(s)
    ensures |Elems(s)| == |s|
  {
    if s != [] {
      var init := s[..|s| - 1];
      assert s == init + [s[|s| - 1]];
      assert Distinct(init);
      DistinctCardinality(init);
      assert s[|s| - 1] !in Elems(init);
      assert Elems(s) == Elems(init) + {s[|s| - 1]};
    }
  }
}
