/** Balance charges outside purchases: API consumption, pending entries and their
    reconciliation. */
module Charges {
  import opened Options
  import opened Model
  import opened Ledger
  import opened Rewards

  // --- API consumption -----------------------------------------------------------------

  /** A turn whose API log could not be stored has nothing to link to. */
  function LogLink(logId: Option<nat>): Link {
    match logId
    case None => NoLink
    case Some(id) => ApiLogLink(id)
  }

  /** commitTextBalanceTurn: charge the balance, or leave a pending entry if it is short. */
  function ConsumeBalance(db: DB, userId: nat, cost: nat, logId: Option<nat>, at: int, bps: int,
                          windowSeconds: int): Outcome
  {
    if userId >= |db.users| then Abort(UserMissing)
    else if db.users[userId].quota < cost then
      WriteEntry(db, Entry(userId, ApiUsagePending, PendingReconcile, 0, db.users[userId].quota,
                           LogLink(logId), cost, at))
    else
      var db1 :- Post(db, userId, -(cost as int), ApiConsumeBalance, LogLink(logId), at);
      SpendReward(db1, userId, cost, bps, windowSeconds, at, LogLink(logId))
  }

  /** Any other writer of an unsettled usage entry; the balance it records is a cached one. */
  function RecordPending(db: DB, userId: nat, unmetered: bool, cost: int, cachedBalance: int, logId: Option<nat>,
                         at: int): Outcome
  {
    if userId >= |db.users| then Abort(UserMissing)
    else
      WriteEntry(db, Entry(userId, ApiUsagePending, if unmetered then UpstreamUnmetered else PendingReconcile,
                           0, cachedBalance, LogLink(logId), cost, at))
  }

  // --- Reconciliation -----------------------------------------------------------------------

  predicate Reconciled(recons: seq<Reconciliation>, entryId: nat) {
    exists i :: 0 <= i < |recons| && recons[i].entryId == entryId
  }

  predicate Open(e: Entry) {
    e.state == PendingReconcile || e.state == UpstreamUnmetered
  }

  /** The charge of a pending entry: guarded debit, adjustment entry, referral reward. */
  function ChargePending(db: DB, entryId: nat, now: int, bps: int, windowSeconds: int): Outcome
    requires entryId < |db.entries|
  {
    var e := db.entries[entryId];
    if e.estimatedCost <= 0 then Abort(ReconcileNoCost)
    else if e.estimatedCost > MAX_SINGLE_RECONCILE_MICRO then Abort(ReconcileOverCap)
    else if e.userId >= |db.users| then Abort(UserMissing)
    else if db.users[e.userId].quota < e.estimatedCost then Abort(InsufficientBalance)
    else
      var db1 :- Post(db, e.userId, -e.estimatedCost, AdminAdjust, EntryLink(entryId), now);
      SpendReward(db1, e.userId, e.estimatedCost, bps, windowSeconds, e.occurredAt, EntryLink(entryId))
  }

  /** The reconciliation transaction; owner is the user id in the stale copy. */
  function Reconcile(db: DB, entryId: nat, owner: nat, result: ReconcileResult, now: int, bps: int,
                     windowSeconds: int): Outcome
  {
    if owner >= |db.users| then Abort(UserMissing)
    else if entryId >= |db.entries| then Abort(RowMissing)
    else if !Open(db.entries[entryId]) then Abort(ReconcileNotPending)
    else
      var db1 :- if result == Charged then ChargePending(db, entryId, now, bps, windowSeconds) else Commit(db);
      if Reconciled(db1.recons, entryId) then Abort(ReconcileAlreadyDone)
      else
        var adjustment := if result == Charged then Some(|db.entries|) else None;
        Commit(db1.(recons := db1.recons + [Reconciliation(entryId, result, adjustment)]))
  }
}
