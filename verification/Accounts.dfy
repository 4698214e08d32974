/** The statement of account: a user's quota recomputed from the business tables. */
module Accounts {
  import opened Model
  import opened Ledger
  import opened Invariants
  import opened Runs
  import opened Theorems

  // --- Ledger totals of single kinds -----------------------------------------------------------

  lemma {:induction false} ZeroKinds(entries: seq<Entry>, userId: nat)
    requires forall k :: 0 <= k < |entries| && ZeroAmountKind(entries[k].kind) ==> entries[k].amount == 0
    ensures forall kind: Kind :: ZeroAmountKind(kind) ==> Total(entries, userId, kind) == 0
  {
    if entries != [] {
      var last := |entries| - 1;
      assert ZeroAmountKind(entries[last].kind) ==> entries[last].amount == 0;
      ZeroKinds(entries[..last], userId);
    }
  }

  /** Adjustments of one user that are not the charge of a pending entry. */
  function OtherAdjustments(entries: seq<Entry>, userId: nat): int {
    if entries == [] then 0
    else
      var e := entries[|entries| - 1];
      OtherAdjustments(entries[..|entries| - 1], userId)
      + (if e.userId == userId && e.kind == AdminAdjust && !e.link.EntryLink? then e.amount else 0)
  }

  lemma {:induction false} AdjustmentsSplit(entries: seq<Entry>, userId: nat)
    ensures Total(entries, userId, AdminAdjust)
            == ReconciledTotal(entries, userId) + OtherAdjustments(entries, userId)
  {
    if entries != [] {
      AdjustmentsSplit(entries[..|entries| - 1], userId);
    }
  }

  // --- Top-up credits ------------------------------------------------------------------------------

  /** The locked amounts of one user's credited orders. */
  function CreditedSum(orders: seq<Order>, userId: nat): int {
    if orders == [] then 0
    else
      var o := orders[|orders| - 1];
      CreditedSum(orders[..|orders| - 1], userId)
      + (if o.userId == userId && o.paidAt.Some? then o.amountMicro else 0)
  }

  function Owned(o: Order, userId: nat): int {
    if o.userId == userId then o.amountMicro else 0
  }

  /** Each of the first n orders, as often as the ledger credits it. */
  function LinkedCredits(orders: seq<Order>, entries: seq<Entry>, userId: nat, n: nat): int
    requires n <= |orders|
  {
    if n == 0 then 0
    else
      LinkedCredits(orders, entries, userId, n - 1)
      + Count(entries, Topup, OrderLink(n - 1)) * Owned(orders[n - 1], userId)
  }

  lemma {:induction false} NoCredits(orders: seq<Order>, userId: nat, n: nat)
    requires n <= |orders|
    ensures LinkedCredits(orders, [], userId, n) == 0
  {
    if n > 0 {
      NoCredits(orders, userId, n - 1);
    }
  }

  /** One more entry adds its order's amount if it is a credit linked to one of the first n. */
  lemma {:induction false} OneMoreCredit(orders: seq<Order>, entries: seq<Entry>, e: Entry, userId: nat, n: nat)
    requires n <= |orders|
    ensures LinkedCredits(orders, entries + [e], userId, n)
            == LinkedCredits(orders, entries, userId, n)
               + (if e.kind == Topup && e.link.OrderLink? && e.link.id < n then Owned(orders[e.link.id], userId) else 0)
  {
    if n > 0 {
      OneMoreCredit(orders, entries, e, userId, n - 1);
      var added := if e.kind == Topup && e.link == OrderLink(n - 1) then 1 else 0;
      assert Count(entries + [e], Topup, OrderLink(n - 1)) == Count(entries, Topup, OrderLink(n - 1)) + added by {
        Appended(entries, e);
      }
      hide Count, Owned;
      Distributes(Count(entries, Topup, OrderLink(n - 1)), added, Owned(orders[n - 1], userId));
    }
  }

  lemma Distributes(c: int, added: int, amount: int)
    ensures (c + added) * amount == c * amount + added * amount
  {
  }

  lemma {:induction false} CreditsAreLinked(orders: seq<Order>, entries: seq<Entry>, userId: nat)
    requires forall k :: 0 <= k < |entries| && entries[k].kind == Topup ==> TopupEntryOf(entries[k], orders)
    ensures Total(entries, userId, Topup) == LinkedCredits(orders, entries, userId, |orders|)
  {
    if entries == [] {
      NoCredits(orders, userId, |orders|);
    } else {
      var last := |entries| - 1;
      CreditsAreLinked(orders, entries[..last], userId);
      OneMoreCredit(orders, entries[..last], entries[last], userId, |orders|);
      assert entries[..last] + [entries[last]] == entries;
      assert entries[last].kind == Topup ==> TopupEntryOf(entries[last], orders);
    }
  }

  lemma {:induction false} LinkedOnce(orders: seq<Order>, entries: seq<Entry>, userId: nat, n: nat)
    requires n <= |orders|
    requires forall i: nat :: i < |orders| ==>
               Count(entries, Topup, OrderLink(i)) == if orders[i].paidAt.Some? then 1 else 0
    ensures LinkedCredits(orders, entries, userId, n) == CreditedSum(orders[..n], userId)
  {
    if n > 0 {
      LinkedOnce(orders, entries, userId, n - 1);
      assert orders[..n][..n - 1] == orders[..n - 1];
    }
  }

  lemma CreditsAdd(db: DB, userId: nat)
    requires Inv(db)
    ensures Total(db.entries, userId, Topup) == CreditedSum(db.orders, userId)
  {
    hide InvUpTo;
    OrdersKnown(db);
    CreditsAreLinked(db.orders, db.entries, userId);
    LinkedOnce(db.orders, db.entries, userId, |db.orders|);
    assert db.orders[..|db.orders|] == db.orders;
  }

  lemma AmountsKnown(db: DB)
    requires Inv(db)
    ensures AmountsOk(db)
  {
  }

  // --- The statement -----------------------------------------------------------------------------------

  /** In every reachable state the ledger agrees with every table beside it: credits with the paid
      orders, reclaims with the refund rows, purchases with the unit prices on the subscriptions,
      adjustments, apart from those not linked to an entry, with the charged reconciliations. */
  lemma LedgerMatchesTables(linkIndex: bool, steps: seq<Step>, u: nat)
    ensures var db := Reached(linkIndex, steps);
            && Total(db.entries, u, Topup) == CreditedSum(db.orders, u)
            && Total(db.entries, u, RefundTopup) == -Reclaimed(db.refunds, db.orders, u)
            && Total(db.entries, u, PurchaseSub) == -PriceSum(db.subs, u, false)
            && Total(db.entries, u, AdminAdjust)
               == OtherAdjustments(db.entries, u) - ChargedSum(db.recons, db.entries, u)
            && (forall kind: Kind :: ZeroAmountKind(kind) ==> Total(db.entries, u, kind) == 0)
  {
    hide InvUpTo, Run;
    var db := Reached(linkIndex, steps);
    ReachedInv(linkIndex, steps);
    CreditsAdd(db, u);
    AmountsKnown(db);
    SubsKnown(db);
    assert db.subs[..|db.subs|] == db.subs;
    ReconsKnown(db);
    ZeroKinds(db.entries, u);
    AdjustmentsSplit(db.entries, u);
  }

  /** So a quota can be recomputed at any time: the locked amounts of the user's credited orders, less
      what refunds reclaimed, the unit prices of all subscriptions ever bought and the charged
      reconciliations, plus what the ledger alone records: bonuses, subscription refunds, other
      adjustments and, negative, consumption. */
  lemma StatementOfAccount(linkIndex: bool, steps: seq<Step>, u: nat)
    requires u < |Reached(linkIndex, steps).users|
    ensures var db := Reached(linkIndex, steps);
            db.users[u].quota
            == CreditedSum(db.orders, u) - Reclaimed(db.refunds, db.orders, u)
               - PriceSum(db.subs, u, false) + Total(db.entries, u, RefundSub)
               - ChargedSum(db.recons, db.entries, u) + OtherAdjustments(db.entries, u)
               + Total(db.entries, u, BonusCredit) + Total(db.entries, u, ApiConsumeBalance)
  {
    hide InvUpTo, Run;
    var db := Reached(linkIndex, steps);
    ReachedInv(linkIndex, steps);
    BalancedKnown(db);
    LedgerMatchesTables(linkIndex, steps, u);
    BalanceIsSumOfKinds(db.entries, u);
  }
}
