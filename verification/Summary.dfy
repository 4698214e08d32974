/** The settled summary shown beside a balance: rows grouped by kind, and what they add up to. */
module Summary {
  import opened Model
  import opened Ledger

  datatype SummaryRow = SummaryRow(kind: Kind, count: nat, total: int)

  /** The signed sum of one user's settled amounts. */
  function SettledSum(entries: seq<Entry>, userId: nat): int {
    if entries == [] then 0
    else
      var e := entries[|entries| - 1];
      SettledSum(entries[..|entries| - 1], userId) + (if e.userId == userId && e.state == Settled then e.amount else 0)
  }

  function AddToRows(rows: seq<SummaryRow>, kind: Kind, amount: int): seq<SummaryRow> {
    if rows == [] then [SummaryRow(kind, 1, amount)]
    else if rows[0].kind == kind then [SummaryRow(kind, rows[0].count + 1, rows[0].total + amount)] + rows[1..]
    else [rows[0]] + AddToRows(rows[1..], kind, amount)
  }

  /** SELECT entry_type, COUNT(*), SUM(amount_usd) ... GROUP BY entry_type. */
  function GroupedByKind(entries: seq<Entry>, userId: nat): seq<SummaryRow> {
    if entries == [] then []
    else
      var rows := GroupedByKind(entries[..|entries| - 1], userId);
      var e := entries[|entries| - 1];
      if e.userId == userId && e.state == Settled then AddToRows(rows, e.kind, e.amount) else rows
  }

  function RowsTotal(rows: seq<SummaryRow>): int {
    if rows == [] then 0 else RowsTotal(rows[..|rows| - 1]) + rows[|rows| - 1].total
  }

  lemma {:induction false} RowsTotalFront(rows: seq<SummaryRow>)
    requires rows != []
    ensures RowsTotal(rows) == rows[0].total + RowsTotal(rows[1..])
  {
    if |rows| > 1 {
      RowsTotalFront(rows[..|rows| - 1]);
      assert rows[..|rows| - 1][1..] == rows[1..][..|rows| - 2];
    }
  }

  lemma {:induction false} AddToRowsTotal(rows: seq<SummaryRow>, kind: Kind, amount: int)
    ensures RowsTotal(AddToRows(rows, kind, amount)) == RowsTotal(rows) + amount
  {
    var out := AddToRows(rows, kind, amount);
    RowsTotalFront(out);
    if rows != [] {
      RowsTotalFront(rows);
      assert out[1..] == if rows[0].kind == kind then rows[1..] else AddToRows(rows[1..], kind, amount);
      if rows[0].kind != kind {
        AddToRowsTotal(rows[1..], kind, amount);
      }
    } else {
      assert out[1..] == [];
    }
  }

  lemma {:induction false} GroupingKeepsSum(entries: seq<Entry>, userId: nat)
    ensures RowsTotal(GroupedByKind(entries, userId)) == SettledSum(entries, userId)
  {
    if entries != [] {
      var last := |entries| - 1;
      GroupingKeepsSum(entries[..last], userId);
      AddToRowsTotal(GroupedByKind(entries[..last], userId), entries[last].kind, entries[last].amount);
    }
  }

  /** What the rows show for one kind. */
  function TotalIn(rows: seq<SummaryRow>, kind: Kind): int {
    if rows == [] then 0 else (if rows[0].kind == kind then rows[0].total else 0) + TotalIn(rows[1..], kind)
  }

  function CountIn(rows: seq<SummaryRow>, kind: Kind): nat {
    if rows == [] then 0 else (if rows[0].kind == kind then rows[0].count else 0) + CountIn(rows[1..], kind)
  }

  /** How many settled entries of one kind a user has. */
  function SettledCount(entries: seq<Entry>, userId: nat, kind: Kind): nat {
    if entries == [] then 0
    else
      var e := entries[|entries| - 1];
      SettledCount(entries[..|entries| - 1], userId, kind)
      + (if e.userId == userId && e.state == Settled && e.kind == kind then 1 else 0)
  }

  lemma RowInFront(row: SummaryRow, rows: seq<SummaryRow>, kind: Kind)
    ensures TotalIn([row] + rows, kind) == (if row.kind == kind then row.total else 0) + TotalIn(rows, kind)
    ensures CountIn([row] + rows, kind) == (if row.kind == kind then row.count else 0) + CountIn(rows, kind)
  {
    assert ([row] + rows)[1..] == rows;
  }

  lemma {:induction false} AddToRowsKind(rows: seq<SummaryRow>, kind: Kind, amount: int, other: Kind)
    ensures TotalIn(AddToRows(rows, kind, amount), other)
            == TotalIn(rows, other) + (if kind == other then amount else 0)
    ensures CountIn(AddToRows(rows, kind, amount), other) == CountIn(rows, other) + (if kind == other then 1 else 0)
  {
    hide TotalIn, CountIn;
    if rows == [] {
      RowInFront(SummaryRow(kind, 1, amount), [], other);
      NothingShown(other);
      assert [SummaryRow(kind, 1, amount)] + [] == [SummaryRow(kind, 1, amount)];
    } else {
      var rest := rows[1..];
      assert rows == [rows[0]] + rest;
      RowInFront(rows[0], rest, other);
      if rows[0].kind == kind {
        RowInFront(SummaryRow(kind, rows[0].count + 1, rows[0].total + amount), rest, other);
      } else {
        AddToRowsKind(rest, kind, amount, other);
        RowInFront(rows[0], AddToRows(rest, kind, amount), other);
      }
    }
  }

  lemma NothingShown(kind: Kind)
    ensures TotalIn([], kind) == 0 && CountIn([], kind) == 0
  {
  }

  predicate NoRowFor(rows: seq<SummaryRow>, kind: Kind) {
    forall i :: 0 <= i < |rows| ==> rows[i].kind != kind
  }

  predicate RowsDistinct(rows: seq<SummaryRow>) {
    forall i, j :: 0 <= i < j < |rows| ==> rows[i].kind != rows[j].kind
  }

  /** No other kind appears. */
  lemma {:induction false} AddKeepsAbsent(rows: seq<SummaryRow>, kind: Kind, amount: int, other: Kind)
    requires NoRowFor(rows, other) && other != kind
    ensures NoRowFor(AddToRows(rows, kind, amount), other)
  {
    if rows != [] && rows[0].kind != kind {
      AddKeepsAbsent(rows[1..], kind, amount, other);
    }
  }

  lemma {:induction false} AddKeepsDistinct(rows: seq<SummaryRow>, kind: Kind, amount: int)
    requires RowsDistinct(rows)
    ensures RowsDistinct(AddToRows(rows, kind, amount))
  {
    if rows != [] && rows[0].kind != kind {
      AddKeepsDistinct(rows[1..], kind, amount);
      AddKeepsAbsent(rows[1..], kind, amount, rows[0].kind);
    }
  }

  /** No kind has two rows, and each kind's row shows its settled total and number of entries. */
  lemma {:induction false} GroupedExactly(entries: seq<Entry>, userId: nat, kind: Kind)
    requires forall k :: 0 <= k < |entries| && entries[k].state != Settled ==> entries[k].amount == 0
    ensures RowsDistinct(GroupedByKind(entries, userId))
    ensures TotalIn(GroupedByKind(entries, userId), kind) == Total(entries, userId, kind)
    ensures CountIn(GroupedByKind(entries, userId), kind) == SettledCount(entries, userId, kind)
  {
    if entries != [] {
      var last := |entries| - 1;
      var rows := GroupedByKind(entries[..last], userId);
      GroupedExactly(entries[..last], userId, kind);
      AddToRowsKind(rows, entries[last].kind, entries[last].amount, kind);
      AddKeepsDistinct(rows, entries[last].kind, entries[last].amount);
    }
  }

  /** The positive totals, and the others with their sign turned. */
  function MoneyIn(rows: seq<SummaryRow>): nat {
    if rows == [] then 0
    else
      var total := rows[|rows| - 1].total;
      MoneyIn(rows[..|rows| - 1]) + (if total > 0 then total else 0)
  }

  function MoneyOut(rows: seq<SummaryRow>): nat {
    if rows == [] then 0
    else
      var total := rows[|rows| - 1].total;
      MoneyOut(rows[..|rows| - 1]) + (if total > 0 then 0 else -total)
  }

  lemma {:induction false} InMinusOut(rows: seq<SummaryRow>)
    ensures MoneyIn(rows) - MoneyOut(rows) == RowsTotal(rows)
  {
    if rows != [] {
      InMinusOut(rows[..|rows| - 1]);
    }
  }

  /** Entries that are not settled move nothing, so the settled sum is the whole balance. */
  lemma {:induction false} SettledIsBalance(entries: seq<Entry>, userId: nat)
    requires forall k :: 0 <= k < |entries| && entries[k].state != Settled ==> entries[k].amount == 0
    ensures SettledSum(entries, userId) == Balance(entries, userId)
  {
    if entries != [] {
      SettledIsBalance(entries[..|entries| - 1], userId);
    }
  }
}
