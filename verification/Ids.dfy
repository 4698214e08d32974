/** Lists of row ids as requests carry them: ids start at 1, row n of a table has id n + 1. */
module Ids {
  /** The named rows, each once, in order of first mention; id 0 names nothing. */
  function Normalized(ids: seq<nat>): (rows: seq<nat>) {
    if ids == [] then []
    else
      var rows := Normalized(ids[..|ids| - 1]);
      var id := ids[|ids| - 1];
      if id == 0 || (id - 1) in rows then rows else rows + [id - 1]
  }

  predicate Distinct(rows: seq<nat>) {
    forall i, j :: 0 <= i < j < |rows| ==> rows[i] != rows[j]
  }

  /** Nothing named is lost, nothing is invented, nothing is repeated. */
  lemma {:induction false} NormalizedExactly(ids: seq<nat>)
    ensures Distinct(Normalized(ids))
    ensures forall row: nat :: row in Normalized(ids) <==> row + 1 in ids
  {
    if ids != [] {
      var last := |ids| - 1;
      NormalizedExactly(ids[..last]);
      forall row: nat ensures row in Normalized(ids) <==> row + 1 in ids {
        assert row + 1 in ids <==> row + 1 in ids[..last] || row + 1 == ids[last];
      }
    }
  }

  /** A list names nothing exactly when it holds no id but 0. */
  lemma NothingNamed(ids: seq<nat>)
    ensures Normalized(ids) == [] <==> forall i :: 0 <= i < |ids| ==> ids[i] == 0
  {
    NormalizedExactly(ids);
    forall i | 0 <= i < |ids| && ids[i] != 0 ensures ids[i] - 1 in Normalized(ids) {
      var row: nat := ids[i] - 1;
      assert row + 1 in ids;
    }
    if Normalized(ids) != [] {
      var row := Normalized(ids)[0];
      assert row in Normalized(ids);
      assert row + 1 in ids;
    }
  }

  /** Normalising in one pass with a set of the ids already seen. */
  method Normalize(ids: seq<nat>) returns (rows: seq<nat>)
    ensures rows == Normalized(ids)
  {
    rows := [];
    var seen: set<nat> := {};
    for i := 0 to |ids|
      invariant rows == Normalized(ids[..i])
      invariant forall id: nat :: id in seen <==> id > 0 && (id - 1) in rows
    {
      var id := ids[i];
      assert ids[..i + 1][..i] == ids[..i];
      if id > 0 && id !in seen {
        seen := seen + {id};
        rows := rows + [id - 1];
      }
    }
    assert ids[..|ids|] == ids;
  }

  /** rows with one more row at its place. */
  function Inserted(rows: seq<nat>, row: nat): seq<nat> {
    if rows == [] || row <= rows[0] then [row] + rows else [rows[0]] + Inserted(rows[1..], row)
  }

  function Ascending(rows: seq<nat>): seq<nat> {
    if rows == [] then [] else Inserted(Ascending(rows[1..]), rows[0])
  }

  predicate Sorted(rows: seq<nat>) {
    forall i, j :: 0 <= i < j < |rows| ==> rows[i] <= rows[j]
  }

  lemma {:induction false} InsertedElements(rows: seq<nat>, row: nat)
    ensures multiset(Inserted(rows, row)) == multiset(rows) + multiset{row}
  {
    if rows != [] && row > rows[0] {
      InsertedElements(rows[1..], row);
      assert rows == [rows[0]] + rows[1..];
    }
  }

  lemma {:induction false} InsertedSorted(rows: seq<nat>, row: nat)
    requires Sorted(rows)
    ensures Sorted(Inserted(rows, row))
    ensures rows != [] ==> Inserted(rows, row)[0] == if row <= rows[0] then row else rows[0]
    ensures Inserted(rows, row) != []
  {
    if rows != [] && row > rows[0] {
      InsertedSorted(rows[1..], row);
    }
  }

  lemma NothingSorted()
    ensures Sorted([])
  {
  }

  /** The order in which the users are locked. */
  lemma {:induction false} AscendingExactly(rows: seq<nat>)
    ensures Sorted(Ascending(rows)) && multiset(Ascending(rows)) == multiset(rows)
  {
    hide Inserted, Sorted;
    NothingSorted();
    if rows != [] {
      AscendingExactly(rows[1..]);
      InsertedSorted(Ascending(rows[1..]), rows[0]);
      InsertedElements(Ascending(rows[1..]), rows[0]);
      assert rows == [rows[0]] + rows[1..];
    }
  }
}
