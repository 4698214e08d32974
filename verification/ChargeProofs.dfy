/** API charges and reconciliations keep the invariant; each pending entry is charged at
    most once. */
module ChargeProofs {
  import opened Options
  import opened Model
  import opened Ledger
  import opened Rewards
  import opened Charges
  import opened Invariants
  import opened TopupProofs
  import opened RewardProofs

  // --- API consumption ------------------------------------------------------------------

  lemma ConsumeKeeps(db: DB, userId: nat, cost: nat, logId: Option<nat>, at: int, bps: int, windowSeconds: int)
    requires Inv(db)
    ensures var out := ConsumeBalance(db, userId, cost, logId, at, bps, windowSeconds); out.Commit? ==> Inv(out.db)
  {
    hide InvUpTo, SpendReward;
    var link := LogLink(logId);
    if userId < |db.users| {
      if db.users[userId].quota < cost {
        NeutralWrite(db, |db.subs|, Entry(userId, ApiUsagePending, PendingReconcile, 0, db.users[userId].quota, link,
                                          cost, at));
      } else {
        NeutralPost(db, |db.subs|, userId, -(cost as int), ApiConsumeBalance, link, at);
        var charged := Post(db, userId, -(cost as int), ApiConsumeBalance, link, at);
        if charged.Commit? {
          SpendRewardKeeps(charged.db, |db.subs|, userId, cost, bps, windowSeconds, at, link);
          SpendRewardFrame(charged.db, userId, cost, bps, windowSeconds, at, link);
        }
      }
    }
  }

  lemma RecordPendingKeeps(db: DB, userId: nat, unmetered: bool, cost: int, cachedBalance: int,
                           logId: Option<nat>, at: int)
    requires Inv(db)
    ensures var out := RecordPending(db, userId, unmetered, cost, cachedBalance, logId, at); out.Commit? ==> Inv(out.db)
  {
    hide InvUpTo;
    if userId < |db.users| {
      var state := if unmetered then UpstreamUnmetered else PendingReconcile;
      NeutralWrite(db, |db.subs|, Entry(userId, ApiUsagePending, state, 0, cachedBalance, LogLink(logId), cost, at));
    }
  }

  // --- Reconciliation --------------------------------------------------------------------

  /** The adjustment a charged reconciliation of entry id writes. */
  ghost predicate ChargeEntry(entries: seq<Entry>, id: nat, e: Entry) {
    && id < |entries| && Open(entries[id])
    && AdjustmentOf(e, id, entries)
  }

  ghost predicate Chargeable(db: DB, id: nat) {
    && id < |db.entries| && db.entries[id].userId < |db.users|
    && 0 < db.entries[id].estimatedCost <= MAX_SINGLE_RECONCILE_MICRO
    && db.entries[id].estimatedCost <= db.users[db.entries[id].userId].quota
  }

  lemma {:induction false} ChargedSumAppend(recons: seq<Reconciliation>, entries: seq<Entry>, r: Reconciliation,
                                            userId: nat)
    ensures ChargedSum(recons + [r], entries, userId) == ChargedSum(recons, entries, userId)
              + (if r.result == Charged && r.entryId < |entries| && entries[r.entryId].userId == userId
                 then entries[r.entryId].estimatedCost else 0)
  {
    assert (recons + [r])[..|recons|] == recons;
  }

  /** One more row for an entry that has none. */
  lemma NewRecon(recons: seq<Reconciliation>, r: Reconciliation)
    requires !Reconciled(recons, r.entryId)
    requires forall p, q :: 0 <= p < q < |recons| ==> recons[p].entryId != recons[q].entryId
    ensures forall p, q :: 0 <= p < q < |recons + [r]| ==> (recons + [r])[p].entryId != (recons + [r])[q].entryId
    ensures forall k: nat :: Reconciled(recons + [r], k) <==> Reconciled(recons, k) || k == r.entryId
    ensures forall k: nat :: ChargedFor(recons + [r], k) <==>
              ChargedFor(recons, k) || (k == r.entryId && r.result == Charged)
  {
    var recons' := recons + [r];
    assert recons'[|recons|] == r;
    assert forall i :: 0 <= i < |recons| ==> recons'[i] == recons[i];
  }

  lemma ChargedMeansReconciled(recons: seq<Reconciliation>, id: nat)
    requires ChargedFor(recons, id)
    ensures Reconciled(recons, id)
  {
  }

  lemma ReconsCharge(recons: seq<Reconciliation>, entries: seq<Entry>, id: nat, e: Entry)
    requires ReconsOk(recons, entries) && ChargeEntry(entries, id, e) && !Reconciled(recons, id)
    ensures ReconsOk(recons + [Reconciliation(id, Charged, Some(|entries|))], entries + [e])
  {
    var r := Reconciliation(id, Charged, Some(|entries|));
    var entries' := entries + [e];
    Appended(entries, e);
    NewRecon(recons, r);
    ReconRowsPost(recons, entries, e);
    assert !ChargedFor(recons, id) by {
      if ChargedFor(recons, id) {
        ChargedMeansReconciled(recons, id);
      }
    }
    assert ReconRow(r, entries');
    forall u: nat
      ensures ReconciledTotal(entries', u) == -ChargedSum(recons + [r], entries', u)
    {
      ChargedSumFrame(recons, entries, e, u);
      ChargedSumAppend(recons, entries', r, u);
    }
  }

  lemma ReconsSettle(recons: seq<Reconciliation>, entries: seq<Entry>, id: nat, result: ReconcileResult)
    requires ReconsOk(recons, entries) && id < |entries| && Open(entries[id]) && !Reconciled(recons, id)
    requires result != Charged
    ensures ReconsOk(recons + [Reconciliation(id, result, None)], entries)
  {
    var r := Reconciliation(id, result, None);
    NewRecon(recons, r);
    forall u: nat
      ensures ReconciledTotal(entries, u) == -ChargedSum(recons + [r], entries, u)
    {
      ChargedSumAppend(recons, entries, r, u);
    }
  }

  /** The debit, its adjustment entry and the reconciliation row, before any reward. */
  function Charge(db: DB, id: nat, now: int): Outcome
    requires id < |db.entries|
  {
    var e := db.entries[id];
    var db1 :- Post(db, e.userId, -e.estimatedCost, AdminAdjust, EntryLink(id), now);
    Commit(db1.(recons := db1.recons + [Reconciliation(id, Charged, Some(|db.entries|))]))
  }

  lemma ChargeKeeps(db: DB, id: nat, now: int)
    requires Inv(db) && Chargeable(db, id) && Open(db.entries[id]) && !Reconciled(db.recons, id)
    ensures var out := Charge(db, id, now); out.Commit? ==> Inv(out.db)
  {
    hide Balanced, OrdersOk, RefundsOk, SubsUpTo, TotalsUpTo, StacksOk, CouponsOk, ReconsOk, OverdraftOk, LinksOk,
         AmountsOk, IndexOk;
    var out := Charge(db, id, now);
    if out.Commit? {
      var e := out.db.entries[|db.entries|];
      BalancedPost(db.users, db.entries, out.db.users, e);
      OrdersPost(db.orders, db.refunds, db.entries, e);
      SubsPost(db.subs, db.entries, |db.subs|, e);
      ReconsCharge(db.recons, db.entries, id, e);
      OverdraftPost(db.users, db.entries, out.db.users, e);
      LinksPost(db, out.db, e);
      IndexPost(db, out.db, e);
    }
  }

  lemma SettleKeeps(db: DB, id: nat, result: ReconcileResult)
    requires Inv(db) && id < |db.entries| && Open(db.entries[id]) && !Reconciled(db.recons, id) && result != Charged
    ensures Inv(db.(recons := db.recons + [Reconciliation(id, result, None)]))
  {
    hide Balanced, OrdersOk, RefundsOk, SubsUpTo, TotalsUpTo, StacksOk, CouponsOk, ReconsOk, OverdraftOk, LinksOk,
         AmountsOk, IndexOk;
    ReconsSettle(db.recons, db.entries, id, result);
    LinksFrame(db, db.(recons := db.recons + [Reconciliation(id, result, None)]));
    IndexFrame(db, db.(recons := db.recons + [Reconciliation(id, result, None)]));
  }

  /** A movement does not look at the reconciliation rows. */
  lemma PostIgnoresRecons(db: DB, recons: seq<Reconciliation>, userId: nat, amount: int, kind: Kind, link: Link,
                          at: int)
    ensures var plain := Post(db, userId, amount, kind, link, at);
            var other := Post(db.(recons := recons), userId, amount, kind, link, at);
            && other.Commit? == plain.Commit?
            && (plain.Commit? ==> other.db == plain.db.(recons := recons) && plain.db.recons == db.recons)
  {
    hide Count;
  }

  /** Neither does the reward. */
  lemma RewardIgnoresRecons(db: DB, recons: seq<Reconciliation>, userId: nat, spend: int, bps: int,
                            windowSeconds: int, at: int, link: Link)
    ensures var plain := SpendReward(db, userId, spend, bps, windowSeconds, at, link);
            var other := SpendReward(db.(recons := recons), userId, spend, bps, windowSeconds, at, link);
            && other.Commit? == plain.Commit?
            && (plain.Commit? ==> other.db == plain.db.(recons := recons) && plain.db.recons == db.recons)
  {
    hide RewardAmount, RemainingPaid, Post;
    if spend > 0 && userId < |db.users| {
      var u := db.users[userId];
      var used := db.(users := db.users[userId := u.(paidQuota := RemainingPaid(u))]);
      assert db.(recons := recons).(users := used.users) == used.(recons := recons);
      if RewardAmount(u, userId, spend, bps, windowSeconds, at) > 0 {
        PayeeNamed(u, userId, spend, bps, windowSeconds, at);
        PostIgnoresRecons(used, recons, u.referredBy.value,
                          RewardAmount(u, userId, spend, bps, windowSeconds, at), BonusCredit, link, at);
      }
    }
  }

  lemma UnreconciledUncounted(db: DB, id: nat)
    requires Inv(db) && id < |db.entries| && !Reconciled(db.recons, id)
    ensures Count(db.entries, AdminAdjust, EntryLink(id)) == 0
    ensures Count(db.entries, BonusCredit, EntryLink(id)) == 0
    ensures db.entries[id].userId < |db.users|
  {
    if ChargedFor(db.recons, id) {
      ChargedMeansReconciled(db.recons, id);
      assert false;
    }
  }

  lemma ChargeCommits(db: DB, id: nat, now: int)
    requires Inv(db) && Chargeable(db, id) && !Reconciled(db.recons, id)
    ensures Charge(db, id, now).Commit?
    ensures !LinkTaken(Charge(db, id, now).db, BonusCredit, EntryLink(id))
    ensures |Charge(db, id, now).db.users| == |db.users|
    ensures Reconciled(Charge(db, id, now).db.recons, id)
  {
    hide InvUpTo;
    UnreconciledUncounted(db, id);
    var db1 := Charge(db, id, now).db;
    Appended(db.entries, db1.entries[|db.entries|]);
    assert db1.recons[|db.recons|].entryId == id;
  }

  lemma ChargedThenRewarded(db: DB, id: nat, now: int, bps: int, windowSeconds: int)
    requires Inv(db) && Chargeable(db, id) && Open(db.entries[id]) && !Reconciled(db.recons, id)
    ensures var out := Reconcile(db, id, db.entries[id].userId, Charged, now, bps, windowSeconds);
            out.Commit? && Inv(out.db)
  {
    hide InvUpTo, SpendReward;
    var e := db.entries[id];
    ChargeKeeps(db, id, now);
    ChargeCommits(db, id, now);
    var dbA := Charge(db, id, now).db;
    var db1 := Post(db, e.userId, -e.estimatedCost, AdminAdjust, EntryLink(id), now).db;
    SpendRewardKeeps(dbA, |dbA.subs|, e.userId, e.estimatedCost, bps, windowSeconds, e.occurredAt, EntryLink(id));
    SpendRewardFrame(dbA, e.userId, e.estimatedCost, bps, windowSeconds, e.occurredAt, EntryLink(id));
    SpendRewardCommits(dbA, e.userId, e.estimatedCost, bps, windowSeconds, e.occurredAt, EntryLink(id));
    RewardIgnoresRecons(db1, dbA.recons, e.userId, e.estimatedCost, bps, windowSeconds, e.occurredAt, EntryLink(id));
  }

  /** A reconciliation commits exactly on an open entry that has no reconciliation row yet and,
      when it charges, whose cost is positive, within the single-charge cap and covered by the
      owner's quota. A repeat attempt therefore leaves quota and ledger untouched. */
  lemma ReconcileKeeps(db: DB, id: nat, result: ReconcileResult, now: int, bps: int, windowSeconds: int)
    requires Inv(db) && id < |db.entries|
    ensures var out := Reconcile(db, id, db.entries[id].userId, result, now, bps, windowSeconds);
            && (out.Commit? <==>
                  && Open(db.entries[id]) && !Reconciled(db.recons, id)
                  && (result == Charged ==> Chargeable(db, id)))
            && (out.Commit? ==> Inv(out.db))
  {
    hide InvUpTo, SpendReward;
    OwnerKnown(db, id);
    if Open(db.entries[id]) {
      if Reconciled(db.recons, id) {
        ReconsUntouched(db, id, now, bps, windowSeconds);
      } else if result == Charged {
        if Chargeable(db, id) {
          ChargedThenRewarded(db, id, now, bps, windowSeconds);
        }
      } else {
        SettleKeeps(db, id, result);
      }
    }
  }

  lemma OwnerKnown(db: DB, id: nat)
    requires Inv(db) && id < |db.entries|
    ensures db.entries[id].userId < |db.users|
  {
  }

  lemma ReconsUntouched(db: DB, id: nat, now: int, bps: int, windowSeconds: int)
    requires id < |db.entries|
    ensures var out := ChargePending(db, id, now, bps, windowSeconds); out.Commit? ==> out.db.recons == db.recons
  {
    hide SpendReward;
    var e := db.entries[id];
    if ChargePending(db, id, now, bps, windowSeconds).Commit? {
      var db1 := Post(db, e.userId, -e.estimatedCost, AdminAdjust, EntryLink(id), now).db;
      SpendRewardFrame(db1, e.userId, e.estimatedCost, bps, windowSeconds, e.occurredAt, EntryLink(id));
    }
  }
}
