/** What the ledger writer and the reconciliation accept, in terms of the rows alone. */
module ChargeDecisions {
  import opened Options
  import opened Model
  import opened Ledger
  import opened Rewards
  import opened Charges
  import opened Invariants
  import opened RewardProofs
  import opened ChargeProofs
  import opened Runs

  /** An entry is refused if it is of one of the four kinds that move nothing but has an amount, or if
      the ledger index is installed, it is linked, and some entry of its kind has its link; otherwise
      it is appended and nothing else changes. */
  lemma EntryExactly(db: DB, e: Entry)
    ensures var out := WriteEntry(db, e);
            if e.kind in {ApiUsageSub, ApiUsagePending, AdminGrantSub, AdminRevokeGrant} && e.amount != 0 then
              out == Abort(BillingInvalid)
            else if db.linkIndex && e.link != NoLink
                    && exists k :: 0 <= k < |db.entries| && db.entries[k].kind == e.kind
                                   && db.entries[k].link == e.link then
              out == Abort(BillingLinkDuplicate)
            else out == Commit(db.(entries := db.entries + [e]))
  {
    if Count(db.entries, e.kind, e.link) > 0 {
      CountedExists(db.entries, e.kind, e.link);
    }
    forall k | 0 <= k < |db.entries| && db.entries[k].kind == e.kind && db.entries[k].link == e.link
      ensures Count(db.entries, e.kind, e.link) > 0
    {
      PresentCounts(db.entries, k);
    }
  }

  /** Usage left pending by any other writer: a zero entry of the pending kind, waiting or unmetered,
      that carries the estimate and the balance it was given. It is refused only for a missing user, or
      where the ledger index already has such an entry for this turn; no row changes. */
  lemma PendingExactly(db: DB, userId: nat, unmetered: bool, cost: int, cachedBalance: int, logId: Option<nat>,
                       at: int)
    ensures var link := if logId.Some? then ApiLogLink(logId.value) else NoLink;
            RecordPending(db, userId, unmetered, cost, cachedBalance, logId, at)
            == if userId >= |db.users| then Abort(UserMissing)
               else if db.linkIndex && logId.Some?
                       && (exists k :: 0 <= k < |db.entries| && db.entries[k].kind == ApiUsagePending
                                       && db.entries[k].link == link) then
                 Abort(BillingLinkDuplicate)
               else Commit(db.(entries := db.entries
                 + [Entry(userId, ApiUsagePending, if unmetered then UpstreamUnmetered else PendingReconcile, 0,
                          cachedBalance, link, cost, at)]))
  {
    hide WriteEntry;
    var link := if logId.Some? then ApiLogLink(logId.value) else NoLink;
    EntryExactly(db, Entry(userId, ApiUsagePending, if unmetered then UpstreamUnmetered else PendingReconcile, 0,
                           cachedBalance, link, cost, at));
  }

  /** An API turn is recorded for every existing user, unless the ledger index already has an entry for
      this turn of the kind to be written: the charge or the pending one, or a reward that is due. */
  lemma TurnRecorded(db: DB, userId: nat, cost: nat, logId: Option<nat>, at: int, bps: int, windowSeconds: int)
    requires userId < |db.users|
    requires db.linkIndex && logId.Some? ==>
               forall k :: 0 <= k < |db.entries| && db.entries[k].link == ApiLogLink(logId.value) ==>
                 db.entries[k].kind !in {ApiConsumeBalance, ApiUsagePending, BonusCredit}
    ensures ConsumeBalance(db, userId, cost, logId, at, bps, windowSeconds).Commit?
    ensures db.users[userId].quota >= cost ==>
              var db' := ConsumeBalance(db, userId, cost, logId, at, bps, windowSeconds).db;
              && |db'.entries| > |db.entries|
              && db'.entries[|db.entries|] == Entry(userId, ApiConsumeBalance, Settled, -(cost as int),
                                                    db.users[userId].quota - cost,
                                                    if logId.Some? then ApiLogLink(logId.value) else NoLink, 0, at)
  {
    hide WriteEntry, SpendReward;
    var link := if logId.Some? then ApiLogLink(logId.value) else NoLink;
    var quota := db.users[userId].quota;
    if quota < cost {
      EntryExactly(db, Entry(userId, ApiUsagePending, PendingReconcile, 0, quota, link, cost, at));
    } else {
      var e := Entry(userId, ApiConsumeBalance, Settled, -(cost as int), quota - cost, link, 0, at);
      var moved := AddQuota(db, userId, -(cost as int));
      EntryExactly(moved, e);
      var db1 := moved.(entries := db.entries + [e]);
      assert Post(db, userId, -(cost as int), ApiConsumeBalance, link, at) == Commit(db1);
      if LinkTaken(db1, BonusCredit, link) {
        CountedExists(db1.entries, BonusCredit, link);
      }
      SpendRewardCommits(db1, userId, cost, bps, windowSeconds, at, link);
      SpendRewardFrame(db1, userId, cost, bps, windowSeconds, at, link);
      var db' := SpendReward(db1, userId, cost, bps, windowSeconds, at, link).db;
      assert db'.entries[|db.entries|] == db'.entries[..|db1.entries|][|db.entries|];
    }
  }

  /** Why a reconciliation is refused, in the order of the checks; otherwise it adds one reconciliation
      row, and only if it charges an adjustment entry, of minus the estimated cost, and at most one
      reward entry behind it. */
  lemma ReconcileExactly(linkIndex: bool, steps: seq<Step>, id: nat, result: ReconcileResult, env: Env)
    requires id < |Run(linkIndex, steps).db.entries|
    ensures var db := Run(linkIndex, steps).db; db.entries[id].userId < |db.users|
    ensures var db := Run(linkIndex, steps).db;
            var e := db.entries[id];
            var done := exists i :: 0 <= i < |db.recons| && db.recons[i].entryId == id;
            match Reconcile(db, id, e.userId, result, env.now, env.bps, env.windowSeconds)
            case Abort(_) =>
              || e.state == Settled || done
              || (result == Charged
                  && (e.estimatedCost <= 0 || e.estimatedCost > 100_000_000
                      || db.users[e.userId].quota < e.estimatedCost))
            case Commit(db') =>
              && e.state != Settled && !done
              && (result == Charged ==> 0 < e.estimatedCost <= 100_000_000
                                        && e.estimatedCost <= db.users[e.userId].quota)
              && db'.recons == db.recons + [Reconciliation(id, result, if result == Charged then Some(|db.entries|)
                                                                       else None)]
              && db' == db.(recons := db'.recons, users := db'.users, entries := db'.entries)
              && (result != Charged ==> db'.users == db.users && db'.entries == db.entries)
              && (result == Charged ==>
                    && |db.entries| < |db'.entries| <= |db.entries| + 2
                    && db'.entries[|db.entries|] == Entry(e.userId, AdminAdjust, Settled, -e.estimatedCost,
                                                          db.users[e.userId].quota - e.estimatedCost, EntryLink(id),
                                                          0, env.now))
  {
    hide InvUpTo, Run, Reconcile;
    var db := Run(linkIndex, steps).db;
    Reachable(linkIndex, steps);
    OwnerKnown(db, id);
    ReconcileKeeps(db, id, result, env.now, env.bps, env.windowSeconds);
    if Reconcile(db, id, db.entries[id].userId, result, env.now, env.bps, env.windowSeconds).Commit? {
      ReconcileRowsWritten(db, id, result, env);
    }
  }

  lemma ReconcileRowsWritten(db: DB, id: nat, result: ReconcileResult, env: Env)
    requires id < |db.entries|
    requires Reconcile(db, id, db.entries[id].userId, result, env.now, env.bps, env.windowSeconds).Commit?
    ensures var e := db.entries[id];
            var db' := Reconcile(db, id, e.userId, result, env.now, env.bps, env.windowSeconds).db;
            && db'.recons == db.recons + [Reconciliation(id, result, if result == Charged then Some(|db.entries|)
                                                                     else None)]
            && db' == db.(recons := db'.recons, users := db'.users, entries := db'.entries)
            && (result != Charged ==> db'.users == db.users && db'.entries == db.entries)
            && (result == Charged ==>
                  && e.userId < |db.users| && |db.entries| < |db'.entries| <= |db.entries| + 2
                  && db'.entries[|db.entries|] == Entry(e.userId, AdminAdjust, Settled, -e.estimatedCost,
                                                        db.users[e.userId].quota - e.estimatedCost, EntryLink(id), 0,
                                                        env.now))
  {
    hide SpendReward, Reconciled, Open, Count;
    if result == Charged {
      var e := db.entries[id];
      var db1 := Post(db, e.userId, -e.estimatedCost, AdminAdjust, EntryLink(id), env.now).db;
      SpendRewardFrame(db1, e.userId, e.estimatedCost, env.bps, env.windowSeconds, e.occurredAt, EntryLink(id));
      var db2 := SpendReward(db1, e.userId, e.estimatedCost, env.bps, env.windowSeconds, e.occurredAt,
                             EntryLink(id)).db;
      assert db2.entries[|db.entries|] == db2.entries[..|db1.entries|][|db.entries|];
    }
  }

  /** A reconciliation is begun exactly on the current row of an entry that is not settled. */
  lemma BeginsExactly(s: Sys, slot: nat, id: nat, copy: Entry, result: ReconcileResult)
    requires slot !in s.slots
    ensures slot in Apply(s, Begin(slot, EntryReconcile(id, copy, result))).slots
            <==> id < |s.db.entries| && copy == s.db.entries[id] && copy.state != Settled
  {
  }
}
