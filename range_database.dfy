/**
 * The `ranges` table: one row per (position, range type), holding the chosen
 * hands as a single comma-separated text. The table is kept as the sequence
 * of its rows in insertion order; the primary key becomes the invariant that
 * no two rows share a key.
 */
module RangeDatabase {
  import opened Enumerations

  datatype Option<T> = None | Some(value: T)

  // ---------------------------------------------------------------------------
  // Comma encoding of a hand list
  // ---------------------------------------------------------------------------

  /** No separator inside a piece. */
  predicate CommaFree(parts: seq<string>)
  {
    forall i :: 0 <= i < |parts| ==> ',' !in parts[i]
  }

  /** `",".join(parts)`. */
  function Join(parts: seq<string>): string
  {
    if parts == [] then ""
    else if |parts| == 1 then parts[0]
    else parts[0] + "," + Join(parts[1..])
  }

  /** `text.split(",")`: the pieces between separators, read one character at a time. */
  function Split(text: string): (parts: seq<string>)
    ensures |parts| >= 1
    ensures CommaFree(parts)
  {
    if text == [] then [""]
    else
      var rest := Split(text[1..]);
      if text[0] == ',' then [""] + rest
      else [[text[0]] + rest[0]] + rest[1..]
  }

  lemma JoinCons(p: string, rest: seq<string>)
    requires rest != []
    ensures Join([p] + rest) == p + "," + Join(rest)
  {
    assert ([p] + rest)[1..] == rest;
  }

  /** Joining the pieces of a split gives the text back. */
  lemma {:induction false} JoinSplit(text: string)
    ensures Join(Split(text)) == text
  {
    if text != [] {
      var rest := Split(text[1..]);
      JoinSplit(text[1..]);
      if text[0] == ',' {
        JoinCons("", rest);
        assert text == "," + text[1..];
      } else if |rest| == 1 {
        assert text == [text[0]] + text[1..];
      } else {
        JoinCons(rest[0], rest[1..]);
        assert rest == [rest[0]] + rest[1..];
        JoinCons([text[0]] + rest[0], rest[1..]);
        assert text == [text[0]] + text[1..];
      }
    }
  }

  /** A piece without separator splits to itself. */
  lemma {:induction false} SplitCommaFree(p: string)
    requires ',' !in p
    ensures Split(p) == [p]
  {
    if p != [] {
      SplitCommaFree(p[1..]);
      assert p == [p[0]] + p[1..];
    }
  }

  /** A separator-free head is split off at the first separator. */
  lemma {:induction false} SplitAtFirstComma(p: string, tail: string)
    requires ',' !in p
    ensures Split(p + "," + tail) == [p] + Split(tail)
  {
    var text := p + "," + tail;
    if p == [] {
      assert text[1..] == tail;
    } else {
      assert text[1..] == p[1..] + "," + tail;
      SplitAtFirstComma(p[1..], tail);
      assert p == [p[0]] + p[1..];
    }
  }

  /** Splitting a join gives back any non-empty list of separator-free pieces, empty pieces included. */
  lemma {:induction false} SplitJoin(parts: seq<string>)
    requires |parts| >= 1 && CommaFree(parts)
    ensures Split(Join(parts)) == parts
  {
    if |parts| == 1 {
      SplitCommaFree(parts[0]);
    } else {
      assert ',' !in parts[0];
      SplitJoin(parts[1..]);
      SplitAtFirstComma(parts[0], Join(parts[1..]));
      assert parts == [parts[0]] + parts[1..];
    }
  }

  /** The empty list is stored as the empty text, which splits to one empty piece, not to no pieces. */
  lemma EmptyListReloadsAsEmptyPiece()
    ensures Join([]) == ""
    ensures Split(Join([])) == [""]
  {
  }

  // ---------------------------------------------------------------------------
  // Rows and the operations on them
  // ---------------------------------------------------------------------------

  /** A stored row: the `hands` column holds the joined hand list. */
  datatype RangeRow = RangeRow(position: string, rangeType: string, hands: string)

  function KeyOf(row: RangeRow): (string, string)
  {
    (row.position, row.rangeType)
  }

  /** The primary key (position, range_type): no two rows share a key. */
  predicate UniqueKeys(rows: seq<RangeRow>)
  {
    forall i, j :: 0 <= i < j < |rows| ==> KeyOf(rows[i]) != KeyOf(rows[j])
  }

  /** The keys present in the table. */
  function Keys(rows: seq<RangeRow>): set<(string, string)>
  {
    set i | 0 <= i < |rows| :: KeyOf(rows[i])
  }

  /** `SELECT ... WHERE position = ? AND range_type = ?`: the index of the row with that key, if any. */
  function FindKey(rows: seq<RangeRow>, position: string, rangeType: string): (found: Option<nat>)
    ensures found.Some? ==> found.value < |rows| && KeyOf(rows[found.value]) == (position, rangeType)
    ensures found.None? <==> (position, rangeType) !in Keys(rows)
  {
    if rows == [] then None
    else if KeyOf(rows[0]) == (position, rangeType) then Some(0)
    else
      match FindKey(rows[1..], position, rangeType)
      case None =>
        assert Keys(rows) == {KeyOf(rows[0])} + Keys(rows[1..]) by {
          forall k | k in Keys(rows) ensures k in {KeyOf(rows[0])} + Keys(rows[1..]) {
            var i :| 0 <= i < |rows| && KeyOf(rows[i]) == k;
            if i > 0 { assert KeyOf(rows[1..][i - 1]) == k; }
          }
        }
        None
      case Some(i) =>
        assert KeyOf(rows[i + 1]) == (position, rangeType);
        Some(i + 1)
  }

  /**
   * save_range on an existing table: when the key is present its row's
   * hands are overwritten in place (UPDATE); otherwise a row is appended
   * (INSERT).
   */
  function Upsert(rows: seq<RangeRow>, position: string, rangeType: string, text: string): (updated: seq<RangeRow>)
    ensures (position, rangeType) in Keys(rows) ==> |updated| == |rows|
    ensures (position, rangeType) !in Keys(rows) ==> updated == rows + [RangeRow(position, rangeType, text)]
    ensures forall i :: 0 <= i < |rows| && KeyOf(rows[i]) != (position, rangeType) ==> updated[i] == rows[i]
    ensures forall i :: 0 <= i < |rows| ==> KeyOf(updated[i]) == KeyOf(rows[i])
    ensures Keys(updated) == Keys(rows) + {(position, rangeType)}
    ensures UniqueKeys(rows) ==> UniqueKeys(updated)
    ensures exists i :: 0 <= i < |updated| && updated[i] == RangeRow(position, rangeType, text)
  {
    match FindKey(rows, position, rangeType)
    case Some(i) =>
      var updated := rows[i := rows[i].(hands := text)];
      assert Keys(updated) == Keys(rows) by {
        forall k ensures k in Keys(updated) <==> k in Keys(rows) {
          if k in Keys(rows) {
            var j :| 0 <= j < |rows| && KeyOf(rows[j]) == k;
            assert KeyOf(updated[j]) == k;
          }
          if k in Keys(updated) {
            var j :| 0 <= j < |updated| && KeyOf(updated[j]) == k;
            assert KeyOf(rows[j]) == k;
          }
        }
      }
      assert updated[i] == RangeRow(position, rangeType, text);
      updated
    case None =>
      var updated := rows + [RangeRow(position, rangeType, text)];
      assert Keys(updated) == Keys(rows) + {(position, rangeType)} by {
        forall k ensures k in Keys(updated) <==> k in Keys(rows) + {(position, rangeType)} {
          if k in Keys(rows) {
            var j :| 0 <= j < |rows| && KeyOf(rows[j]) == k;
            assert KeyOf(updated[j]) == k;
          }
          if k in Keys(updated) {
            var j :| 0 <= j < |updated| && KeyOf(updated[j]) == k;
            if j < |rows| { assert KeyOf(rows[j]) == k; }
          }
        }
        assert KeyOf(updated[|rows|]) == (position, rangeType);
      }
      assert updated[|rows|] == RangeRow(position, rangeType, text);
      updated
  }

  /** load_range: the split hands of the row with that key, or `[]` when there is none. */
  function Lookup(rows: seq<RangeRow>, position: string, rangeType: string): (hands: seq<string>)
    ensures (position, rangeType) !in Keys(rows) ==> hands == []
    ensures (position, rangeType) in Keys(rows) ==> |hands| >= 1 && CommaFree(hands)
  {
    match FindKey(rows, position, rangeType)
    case None => []
    case Some(i) => Split(rows[i].hands)
  }

  /** Under the primary key, the row found for a key is the only row with that key. */
  lemma LookupFindsTheRow(rows: seq<RangeRow>, i: nat)
    requires UniqueKeys(rows) && i < |rows|
    ensures Lookup(rows, rows[i].position, rows[i].rangeType) == Split(rows[i].hands)
  {
    var found := FindKey(rows, rows[i].position, rows[i].rangeType);
    assert KeyOf(rows[i]) in Keys(rows);
    assert found.Some?;
    assert found.value == i;
  }

  /** load_range after save_range of a non-empty list of separator-free hands returns that list. */
  lemma SaveThenLoad(rows: seq<RangeRow>, position: string, rangeType: string, hands: seq<string>)
    requires UniqueKeys(rows)
    requires |hands| >= 1 && CommaFree(hands)
    ensures Lookup(Upsert(rows, position, rangeType, Join(hands)), position, rangeType) == hands
  {
    var updated := Upsert(rows, position, rangeType, Join(hands));
    var i :| 0 <= i < |updated| && updated[i] == RangeRow(position, rangeType, Join(hands));
    LookupFindsTheRow(updated, i);
    SplitJoin(hands);
  }

  /** load_range after save_range of the empty list returns one empty piece. */
  lemma SaveEmptyThenLoad(rows: seq<RangeRow>, position: string, rangeType: string)
    requires UniqueKeys(rows)
    ensures Lookup(Upsert(rows, position, rangeType, Join([])), position, rangeType) == [""]
  {
    var updated := Upsert(rows, position, rangeType, Join([]));
    var i :| 0 <= i < |updated| && updated[i] == RangeRow(position, rangeType, Join([]));
    LookupFindsTheRow(updated, i);
  }

  /** save_range leaves what load_range returns for every other key unchanged. */
  lemma SaveKeepsOtherKeys(rows: seq<RangeRow>, position: string, rangeType: string, text: string,
                           otherPosition: string, otherType: string)
    requires UniqueKeys(rows)
    requires (otherPosition, otherType) != (position, rangeType)
    ensures Lookup(Upsert(rows, position, rangeType, text), otherPosition, otherType) == Lookup(rows, otherPosition, otherType)
  {
    var updated := Upsert(rows, position, rangeType, text);
    if (otherPosition, otherType) in Keys(rows) {
      var i :| 0 <= i < |rows| && KeyOf(rows[i]) == (otherPosition, otherType);
      LookupFindsTheRow(rows, i);
      assert updated[i] == rows[i];
      LookupFindsTheRow(updated, i);
    } else {
      assert (otherPosition, otherType) !in Keys(updated);
    }
  }

  /** Saving the same hands twice is the same as saving them once. */
  lemma UpsertIdempotent(rows: seq<RangeRow>, position: string, rangeType: string, text: string)
    requires UniqueKeys(rows)
    ensures Upsert(Upsert(rows, position, rangeType, text), position, rangeType, text) == Upsert(rows, position, rangeType, text)
  {
    var once := Upsert(rows, position, rangeType, text);
    var twice := Upsert(once, position, rangeType, text);
    var i :| 0 <= i < |once| && once[i] == RangeRow(position, rangeType, text);
    assert |twice| == |once|;
    forall j | 0 <= j < |once| ensures twice[j] == once[j] {
      if j != i {
        assert KeyOf(once[j]) != (position, rangeType);
      } else {
        assert KeyOf(twice[j]) == KeyOf(once[j]);
        var k :| 0 <= k < |twice| && twice[k] == RangeRow(position, rangeType, text);
        assert KeyOf(twice[k]) == KeyOf(once[k]);
      }
    }
  }

  /**
   * The selector saves `list(range)` and rebuilds its range with `set(...)`
   * of what it loads: a non-empty range of separator-free hands comes back
   * as itself, the empty range as the one-element set of the empty name.
   */
  lemma SavedRangeReloads(rows: seq<RangeRow>, position: string, rangeType: string,
                          range: set<string>, listed: seq<string>)
    requires UniqueKeys(rows)
    requires IsEnumeration(listed, range)
    requires forall h :: h in range ==> ',' !in h
    ensures Elems(Lookup(Upsert(rows, position, rangeType, Join(listed)), position, rangeType))
         == if range == {} then {""} else range
  {
    if listed == [] {
      SaveEmptyThenLoad(rows, position, rangeType);
      assert Elems([""]) == {""};
    } else {
      assert forall i :: 0 <= i < |listed| ==> listed[i] in range;
      SaveThenLoad(rows, position, rangeType, listed);
    }
  }

  // ---------------------------------------------------------------------------
  // The table
  // ---------------------------------------------------------------------------

  /**
   * The database file's `ranges` table. Until create_table has run the table
   * does not exist: every statement then raises an sqlite error, which the
   * functions catch and report.
   */
  class RangeTable {
    var created: bool
    var rows: seq<RangeRow>

    ghost predicate Valid()
      reads this
    {
      UniqueKeys(rows) && (!created ==> rows == [])
    }

    /** A database without the table. */
    constructor ()
      ensures Valid()
      ensures !created && rows == []
    {
      created := false;
      rows := [];
    }

    /** create_table: `CREATE TABLE IF NOT EXISTS`, so existing rows survive. */
    method CreateTable()
      requires Valid()
      modifies this
      ensures Valid()
      ensures created
      ensures rows == old(rows)
    {
      created := true;
    }

    /** save_range: the hands joined with commas, updated in place or inserted; a no-op when the table is missing. */
    method SaveRange(position: string, rangeType: string, hands: seq<string>)
      requires Valid()
      modifies this
      ensures Valid()
      ensures created == old(created)
      ensures rows == if created then Upsert(old(rows), position, rangeType, Join(hands)) else old(rows)
    {
      if !created {
        return;
      }
      var found := FindKey(rows, position, rangeType);
      var text := Join(hands);
      if found.Some? {
        rows := rows[found.value := rows[found.value].(hands := text)];
      } else {
        rows := rows + [RangeRow(position, rangeType, text)];
      }
    }

    /** load_range: the stored hands split at the commas, or `[]` for a missing key or a missing table. */
    method LoadRange(position: string, rangeType: string) returns (hands: seq<string>)
      requires Valid()
      ensures hands == Lookup(rows, position, rangeType)
      ensures (position, rangeType) !in Keys(rows) ==> hands == []
      ensures (position, rangeType) in Keys(rows) ==> Join(hands) == rows[FindKey(rows, position, rangeType).value].hands
    {
      if !created {
        return [];
      }
      var found := FindKey(rows, position, rangeType);
      if found.Some? {
        hands := Split(rows[found.value].hands);
        JoinSplit(rows[found.value].hands);
      } else {
        hands := [];
      }
    }

    /** load_all_ranges: every stored (position, range_type, hands) row, one per key. */
    method LoadAllRanges() returns (result: seq<RangeRow>)
      requires Valid()
      ensures UniqueKeys(result)
      ensures Keys(result) == Keys(rows)
      ensures forall i :: 0 <= i < |result| ==> result[i] in rows
      ensures forall i :: 0 <= i < |rows| ==> rows[i] in result
    {
      if !created {
        return [];
      }
      result := rows;
    }
  }
}
