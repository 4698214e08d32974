/** Whose money each committed transaction moves, by how much, and that nobody else's moves. */
module Effects {
  import opened Options
  import opened Money
  import opened Model
  import opened Ledger
  import opened Topups
  import opened Rewards
  import opened Subscriptions
  import opened Charges
  import opened Invariants
  import opened TopupProofs
  import opened RewardProofs
  import opened SubscriptionProofs
  import opened ChargeProofs

  /** One user's quota moved by dq and paid_quota became paid; every other row is as before. */
  ghost predicate UserMoved(db: DB, db': DB, userId: nat, dq: int, paid: int) {
    && |db'.users| == |db.users| && userId < |db.users|
    && db'.users[userId] == db.users[userId].(quota := db.users[userId].quota + dq, paidQuota := paid)
    && (forall u: nat :: u < |db.users| && u != userId ==> db'.users[u] == db.users[u])
  }

  /** The ledger grew by exactly this one settled movement of this user. */
  ghost predicate OneEntry(db: DB, db': DB, userId: nat, kind: Kind, amount: int, link: Link) {
    && |db'.entries| == |db.entries| + 1 && db'.entries[..|db.entries|] == db.entries
    && var e := db'.entries[|db.entries|];
       && e.userId == userId && e.kind == kind && e.amount == amount && e.link == link && e.state == Settled
       && userId < |db'.users| && e.balanceAfter == db'.users[userId].quota
  }

  /** A webhook credit adds the locked amount of the order to its owner's quota and paid_quota. */
  lemma FinalizeMoves(db: DB, event: Event, copy: Order, now: int)
    requires OrderCopy(db, event.outTradeNo, copy) && FinalizePaid(db, event, copy, now).Commit?
    ensures var db' := FinalizePaid(db, event, copy, now).db;
            var o := db.orders[event.outTradeNo];
            && UserMoved(db, db', o.userId, o.amountMicro, db.users[o.userId].paidQuota + o.amountMicro)
            && OneEntry(db, db', o.userId, Topup, o.amountMicro, OrderLink(event.outTradeNo))
            && db'.orders[event.outTradeNo].status == Paid
  {
  }

  /** So does a manual payment, and its external reference can then never be used again, for
      this or any other order. */
  lemma MarkPaidMoves(db: DB, id: nat, owner: nat, externalRef: string, now: int, other: nat, otherOwner: nat)
    requires MarkPaid(db, id, owner, externalRef, now).Commit?
    ensures var db' := MarkPaid(db, id, owner, externalRef, now).db;
            id < |db.orders| &&
            var o := db.orders[id];
            && o.userId < |db.users|
            && UserMoved(db, db', o.userId, o.amountMicro, db.users[o.userId].paidQuota + o.amountMicro)
            && OneEntry(db, db', o.userId, Topup, o.amountMicro, OrderLink(id))
            && MarkPaid(db', other, otherOwner, externalRef, now).Abort?
  {
  }

  /** A refund moves exactly the rounded share between the order's refunded totals: out of the
      quota if reclaimed, out of paid_quota down to zero in either case. */
  lemma RefundMoves(db: DB, id: nat, requestedFen: nat, reclaim: bool, externalRef: string, now: int, db': DB)
    requires Inv(db) && id < |db.orders|
    requires RefundOrder(db, id, db.orders[id].userId, requestedFen, reclaim, externalRef, now) == Commit(db')
    ensures |db'.orders| == |db.orders| && |db'.refunds| == |db.refunds| + 1
    ensures var o, o' := db.orders[id], db'.orders[id];
            var share := Share(o.amountMicro, o.moneyFen, o.refundedFen, o'.refundedFen);
            && o.userId < |db.users|
            && o'.refundedFen == (if requestedFen > 0 then o.refundedFen + requestedFen else o.moneyFen)
            && share >= 0
            && UserMoved(db, db', o.userId, if reclaim then -share else 0,
                         if db.users[o.userId].paidQuota >= share then db.users[o.userId].paidQuota - share else 0)
            && OneEntry(db, db', o.userId, RefundTopup, if reclaim then -share else 0, OrderLink(id))
            && db'.refunds[|db.refunds|] == Refund(id, externalRef, o'.refundedFen - o.refundedFen, share, reclaim)
  {
    hide InvUpTo, RefundShare, RefundWrites, RefUsed, HasUnrefundedSub;
    var o := db.orders[id];
    var fen := RefundFen(o, requestedFen);
    OrderKnown(db, id);
    ShareOfRow(o, fen);
    RefundShareIs(o, fen);
    RefundWritesMove(db, id, o.userId, fen, RefundShare(o, fen).value, reclaim, externalRef, now, db');
  }

  /** The share between the two refunded totals. */
  lemma RefundShareIs(o: Order, fen: int)
    requires RefundShare(o, fen).Some?
    ensures RefundShare(o, fen).value == Share(o.amountMicro, o.moneyFen, o.refundedFen, o.refundedFen + fen)
  {
  }

  lemma RefundWritesMove(db: DB, id: nat, owner: nat, fen: int, micro: int, reclaim: bool, externalRef: string,
                         now: int, db': DB)
    requires id < |db.orders| && owner < |db.users|
    requires RefundWrites(db, id, owner, fen, micro, reclaim, externalRef, now) == Commit(db')
    ensures |db'.orders| == |db.orders| && db'.orders[id].refundedFen == db.orders[id].refundedFen + fen
    ensures db'.refunds == db.refunds + [Refund(id, externalRef, fen, micro, reclaim)]
    ensures UserMoved(db, db', owner, if reclaim then -micro else 0, Saturating(db.users[owner].paidQuota, micro))
    ensures OneEntry(db, db', owner, RefundTopup, if reclaim then -micro else 0, OrderLink(id))
  {
    hide Count;
  }

  /** A subscription refund returns exactly the agreed amount; a revocation moves nothing. */
  lemma SubRefundMoves(db: DB, id: nat, copy: Sub, amount: int, now: int)
    requires SubCopy(db, id, copy) && RefundSubscription(db, id, copy.userId, amount, now).Commit?
    ensures var db' := RefundSubscription(db, id, copy.userId, amount, now).db;
            && copy.userId < |db.users|
            && UserMoved(db, db', copy.userId, amount, db.users[copy.userId].paidQuota)
            && OneEntry(db, db', copy.userId, RefundSub, amount, SubRefundLink(id))
            && db'.subs[id].status == SubRefunded
  {
  }

  lemma RevokeMoves(db: DB, id: nat, owner: nat, now: int)
    requires RevokeGrant(db, id, owner, now).Commit?
    ensures var db' := RevokeGrant(db, id, owner, now).db;
            && id < |db.subs| && db'.users == db.users
            && OneEntry(db, db', db.subs[id].userId, AdminRevokeGrant, 0, SubLink(id))
            && db'.subs[id].status == Revoked
  {
  }

  /** A movement touches one quota and writes one entry. */
  lemma PostMoves(db: DB, userId: nat, amount: int, kind: Kind, link: Link, at: int)
    requires userId < |db.users| && Post(db, userId, amount, kind, link, at).Commit?
    ensures var db' := Post(db, userId, amount, kind, link, at).db;
            && db'.users == db.users[userId := db.users[userId].(quota := db.users[userId].quota + amount)]
            && OneEntry(db, db', userId, kind, amount, link)
  {
    hide Count;
  }

  /** The referrer who gains from a spend of u, if there is one. */
  predicate Gains(db: DB, u: User, v: nat) {
    u.referredBy == Some(v) && v < |db.users| && db.users[v].ordinary && db.users[v].enabled
  }

  /** What a paid-spend reward changes: the spender's paid part shrinks to what the balance still
      covers, and at most one other user, an ordinary enabled referrer, gains the reward, with an
      entry for it. */
  lemma RewardMoves(db: DB, userId: nat, spend: int, bps: int, windowSeconds: int, at: int, link: Link)
    requires userId < |db.users| && spend > 0 && SpendReward(db, userId, spend, bps, windowSeconds, at, link).Commit?
    ensures var db' := SpendReward(db, userId, spend, bps, windowSeconds, at, link).db;
            var u := db.users[userId];
            var reward := RewardAmount(u, userId, spend, bps, windowSeconds, at);
            && |db'.users| == |db.users|
            && db'.users[userId] == u.(paidQuota := RemainingPaid(u))
            && (forall v: nat :: v < |db.users| && v != userId ==>
                  db'.users[v] == db.users[v].(quota := db.users[v].quota
                                                 + (if Gains(db, u, v) && reward > 0 then reward else 0)))
            && (if reward > 0 && u.referredBy.Some? && Gains(db, u, u.referredBy.value)
                then OneEntry(db, db', u.referredBy.value, BonusCredit, reward, link)
                else db'.entries == db.entries)
  {
    var u := db.users[userId];
    hide RewardAmount, RemainingPaid, Post;
    var reward := RewardAmount(u, userId, spend, bps, windowSeconds, at);
    if reward > 0 {
      PayeeNamed(u, userId, spend, bps, windowSeconds, at);
      var used := db.(users := db.users[userId := u.(paidQuota := RemainingPaid(u))]);
      if Gains(db, u, u.referredBy.value) {
        PostMoves(used, u.referredBy.value, reward, BonusCredit, link, at);
      }
    }
  }

  /** A charged reconciliation takes exactly the estimated cost from the entry's owner and may bring
      the owner's referrer the reward for it; the other results move nothing. Either way the entry
      is reconciled, and nobody else is touched. */
  lemma ReconcileMoves(db: DB, id: nat, result: ReconcileResult, now: int, bps: int, windowSeconds: int, db': DB)
    requires Inv(db) && id < |db.entries|
    requires Reconcile(db, id, db.entries[id].userId, result, now, bps, windowSeconds) == Commit(db')
    ensures |db'.users| == |db.users| && db.entries[id].userId < |db.users|
    ensures Reconciled(db'.recons, id)
    ensures result != Charged ==> db'.users == db.users && db'.entries == db.entries
    ensures result == Charged ==>
              var e := db.entries[id];
              var charged := db.users[e.userId].(quota := db.users[e.userId].quota - e.estimatedCost);
              var reward := RewardAmount(charged, e.userId, e.estimatedCost, bps, windowSeconds, e.occurredAt);
              && charged.quota >= 0
              && db'.users[e.userId] == charged.(paidQuota := RemainingPaid(charged))
              && (forall v: nat :: v < |db.users| && v != e.userId ==>
                    db'.users[v] == db.users[v].(quota := db.users[v].quota
                                                   + (if Gains(db, charged, v) && reward > 0 then reward else 0)))
  {
    hide InvUpTo, SpendReward, RewardAmount, RemainingPaid;
    ReconcileKeeps(db, id, result, now, bps, windowSeconds);
    OwnerKnown(db, id);
    assert db'.recons[|db'.recons| - 1].entryId == id;
    if result == Charged {
      var e := db.entries[id];
      var db1 := Post(db, e.userId, -e.estimatedCost, AdminAdjust, EntryLink(id), now).db;
      RewardMoves(db1, e.userId, e.estimatedCost, bps, windowSeconds, e.occurredAt, EntryLink(id));
    }
  }

  /** An API turn either takes exactly its cost, never below zero, or leaves the cost on a pending
      entry and takes nothing. */
  lemma ConsumeMoves(db: DB, userId: nat, cost: nat, logId: Option<nat>, at: int, bps: int, windowSeconds: int)
    requires ConsumeBalance(db, userId, cost, logId, at, bps, windowSeconds).Commit?
    ensures var db' := ConsumeBalance(db, userId, cost, logId, at, bps, windowSeconds).db;
            && userId < |db.users| == |db'.users| && |db'.entries| > |db.entries|
            && db'.entries[|db.entries|].link == LogLink(logId)
            && (if db.users[userId].quota >= cost
                then db'.users[userId].quota == db.users[userId].quota - cost
                     && db'.entries[|db.entries|].kind == ApiConsumeBalance
                     && db'.entries[|db.entries|].amount == -(cost as int)
                else db'.users == db.users && Open(db'.entries[|db.entries|])
                     && db'.entries[|db.entries|].estimatedCost == cost)
  {
    hide SpendReward;
    if db.users[userId].quota >= cost {
      var db1 := Post(db, userId, -(cost as int), ApiConsumeBalance, LogLink(logId), at).db;
      var db' := ConsumeBalance(db, userId, cost, logId, at, bps, windowSeconds).db;
      SpendRewardFrame(db1, userId, cost, bps, windowSeconds, at, LogLink(logId));
      RewardSparesSpender(db1, userId, cost, bps, windowSeconds, at, LogLink(logId));
      assert db'.entries[|db.entries|] == db'.entries[..|db1.entries|][|db.entries|];
    }
  }

  /** Signing up adds one user row that holds exactly the signup bonus, and touches nobody else. */
  lemma SignUpMoves(db: DB, ordinary: bool, signupBonus: nat, template: Option<CouponTemplate>, expiresAt: Option<int>,
                    at: int)
    requires Inv(db)
    ensures var out := CreateUser(db, ordinary, signupBonus, template, expiresAt, at);
            && out.Commit? && out.db.users == db.users + [User(signupBonus, 0, None, None, ordinary, true)]
            && |out.db.entries| == |db.entries| + (if signupBonus > 0 then 1 else 0)
            && (signupBonus > 0 ==>
                  OneEntry(db, out.db, |db.users|, BonusCredit, signupBonus, UserLink(|db.users|)))
            && |out.db.coupons| == |db.coupons| + (if template.Some? && template.value.enabled then 1 else 0)
  {
    hide InvUpTo;
    CreateUserKeeps(db, ordinary, signupBonus, template, expiresAt, at);
  }

  /** A referral brings each side its own bonus. */
  lemma BonusesMove(db: DB, newUser: nat, referrer: nat, referrerBonus: nat, refereeBonus: nat, at: int)
    requires ReferralBonuses(db, newUser, referrer, referrerBonus, refereeBonus, at).Commit?
    ensures var db' := ReferralBonuses(db, newUser, referrer, referrerBonus, refereeBonus, at).db;
            && newUser != referrer && newUser < |db.users| && referrer < |db.users| && |db'.users| == |db.users|
            && db'.users[referrer] == db.users[referrer].(quota := db.users[referrer].quota + referrerBonus)
            && db'.users[newUser] == Relate(db.users[newUser], referrer, at).(
                                       quota := db.users[newUser].quota + refereeBonus)
            && (forall v: nat :: v < |db.users| && v != newUser && v != referrer ==> db'.users[v] == db.users[v])
  {
    hide Post, Relate;
    var db1 := db.(users := db.users[newUser := Relate(db.users[newUser], referrer, at)]);
    RelateKeepsQuota(db.users[newUser], referrer, at);
    if referrerBonus > 0 {
      PostMoves(db1, referrer, referrerBonus, BonusCredit, UserLink(newUser), at);
    }
    var db2 := Bonus(db1, referrer, referrerBonus, UserLink(newUser), at).db;
    if refereeBonus > 0 {
      PostMoves(db2, newUser, refereeBonus, BonusCredit, UserLink(referrer), at);
    }
  }

  lemma RelateKeepsQuota(u: User, referrer: nat, at: int)
    ensures Relate(u, referrer, at).quota == u.quota
    ensures Relate(u, referrer, at).referredBy == if u.referredBy == None then Some(referrer) else u.referredBy
  {
  }
}
