/** Exactly when a paid order stays paid or refunded, step by step and over runs. */
module OrderLifecycle {
  import opened Options
  import opened Money
  import opened Model
  import opened Ledger
  import opened Topups
  import opened Rewards
  import opened Subscriptions
  import opened Charges
  import opened UsageReset
  import opened RewardProofs
  import opened Runs

  predicate PaidState(o: Order) {
    o.status == Paid || o.status == Refunded
  }

  // --- Transactions that leave the order table alone --------------------------------------

  lemma {:induction false} UnitsLeaveOrders(db: DB, userId: nat, kind: Kind, amounts: seq<int>, firstSub: nat, at: int)
    ensures var out := PostUnits(db, userId, kind, amounts, firstSub, at); out.Commit? ==> out.db.orders == db.orders
    decreases |amounts|
  {
    if amounts != [] {
      var posted := Post(db, userId, amounts[0], kind, SubLink(firstSub), at);
      if posted.Commit? {
        UnitsLeaveOrders(posted.db, userId, kind, amounts[1..], firstSub + 1, at + 1);
      }
    }
  }

  lemma {:induction false} ResetsLeaveOrders(db: DB, ids: seq<nat>, written: seq<Entry>, at: int)
    requires forall k :: 0 <= k < |ids| ==> ids[k] < |db.subs|
    ensures var out := WriteResets(db, ids, written, at); out.Commit? ==> out.db.orders == db.orders
    decreases |ids|
  {
    if ids != [] {
      var link := if Count(written, AdminAdjust, ResetLink(ids[0])) > 0 then NoLink else ResetLink(ids[0]);
      var owner := db.subs[ids[0]].userId;
      var e := Entry(owner, AdminAdjust, Settled, 0, QuotaOf(db.users, owner), link, 0, at);
      if WriteEntry(db, e).Commit? {
        ResetsLeaveOrders(WriteEntry(db, e).db, ids[1..], written, at + 1);
      }
    }
  }

  lemma ResetLeavesOrders(db: DB, scope: ResetScope, now: int)
    ensures ResetUsage(db, scope, now).After(db).orders == db.orders
  {
    hide WriteResets, ClearUsage, Matched;
    var ids := Matched(db.subs, scope, now);
    ResetsLeaveOrders(db.(usage := ClearUsage(db.usage, db.subs, ids, now)), ids, db.entries, now);
  }

  lemma PurchaseLeavesOrders(db: DB, userId: nat, packageId: nat, qty: nat, couponId: Option<nat>, now: int,
                             checkedAt: int, bps: int, windowSeconds: int)
    ensures Purchase(db, userId, packageId, qty, couponId, now, checkedAt, bps, windowSeconds).After(db).orders
            == db.orders
  {
    hide PostUnits, SpendReward;
    if Purchase(db, userId, packageId, qty, couponId, now, checkedAt, bps, windowSeconds).Commit? {
      var db1 := WithRows(db, userId, packageId, qty, couponId, now);
      var amounts := BoughtAmounts(db, packageId, qty, couponId);
      UnitsLeaveOrders(db1, userId, PurchaseSub, amounts, |db.subs|, now);
      var db2 := PostUnits(db1, userId, PurchaseSub, amounts, |db.subs|, now).db;
      SpendRewardFrame(db2, userId, TotalPrice(db, packageId, qty, couponId), bps, windowSeconds, now,
                       SubLink(|db.subs|));
    }
  }

  lemma GrantLeavesOrders(db: DB, userId: nat, packageId: nat, qty: nat, seconds: int, now: int, checkedAt: int)
    ensures Grant(db, userId, packageId, qty, seconds, now, checkedAt).After(db).orders == db.orders
  {
    hide PostUnits;
    if Grant(db, userId, packageId, qty, seconds, now, checkedAt).Commit? {
      var db1 := db.(subs := db.subs + GrantedSubs(db, userId, packageId, qty, seconds, now));
      UnitsLeaveOrders(db1, userId, AdminGrantSub, Zeros(qty), |db.subs|, now);
    }
  }

  lemma ConsumeLeavesOrders(db: DB, userId: nat, cost: nat, logId: Option<nat>, at: int, bps: int, windowSeconds: int)
    ensures ConsumeBalance(db, userId, cost, logId, at, bps, windowSeconds).After(db).orders == db.orders
  {
    hide SpendReward;
    var posted := Post(db, userId, -(cost as int), ApiConsumeBalance, LogLink(logId), at);
    if posted.Commit? {
      SpendRewardFrame(posted.db, userId, cost, bps, windowSeconds, at, LogLink(logId));
    }
  }

  lemma ReconcileLeavesOrders(db: DB, id: nat, owner: nat, result: ReconcileResult, now: int, bps: int,
                              windowSeconds: int)
    ensures Reconcile(db, id, owner, result, now, bps, windowSeconds).After(db).orders == db.orders
  {
    hide SpendReward;
    if id < |db.entries| {
      var e := db.entries[id];
      var posted := Post(db, e.userId, -e.estimatedCost, AdminAdjust, EntryLink(id), now);
      if posted.Commit? {
        SpendRewardFrame(posted.db, e.userId, e.estimatedCost, bps, windowSeconds, e.occurredAt, EntryLink(id));
      }
    }
  }

  lemma SubEndsLeaveOrders(db: DB, id: nat, owner: nat, amount: int, now: int)
    ensures RefundSubscription(db, id, owner, amount, now).After(db).orders == db.orders
    ensures RevokeGrant(db, id, owner, now).After(db).orders == db.orders
    ensures Cancel(db, id, now).After(db).orders == db.orders
  {
  }

  lemma BonusesLeaveOrders(db: DB, newUser: nat, referrer: nat, b1: nat, b2: nat, at: int)
    ensures ReferralBonuses(db, newUser, referrer, b1, b2, at).After(db).orders == db.orders
  {
  }

  lemma SignUpLeavesOrders(db: DB, ordinary: bool, bonus: nat, template: Option<CouponTemplate>, expiresAt: Option<int>,
                           at: int)
    ensures CreateUser(db, ordinary, bonus, template, expiresAt, at).After(db).orders == db.orders
  {
  }

  lemma SubWritesLeaveOrders(db: DB, id: nat, paused: bool)
    ensures Expire(db, id).After(db).orders == db.orders
    ensures SetPaused(db, id, paused).After(db).orders == db.orders
  {
  }

  lemma PendingLeavesOrders(db: DB, userId: nat, unmetered: bool, cost: int, cachedBalance: int, logId: Option<nat>,
                            at: int)
    ensures RecordPending(db, userId, unmetered, cost, cachedBalance, logId, at).After(db).orders == db.orders
  {
  }

  lemma CouponsLeaveOrders(db: DB, id: nat, userIds: seq<nat>, template: CouponTemplate, qty: nat,
                           expiresAt: Option<int>, now: int)
    ensures RevokeCoupon(db, id, now).After(db).orders == db.orders
    ensures GrantCoupons(db, userIds, template, qty, expiresAt).After(db).orders == db.orders
  {
  }

  // --- Transactions on orders ---------------------------------------------------------------

  /** An order that was decided stays decided, and paid or refunded as it was. */
  ghost predicate Kept(o: Order, o': Order) {
    o'.status != Created && (PaidState(o') <==> PaidState(o))
  }

  ghost predicate OrderKept(db: DB, db': DB, id: nat) {
    id < |db.orders| <= |db'.orders| && Kept(db.orders[id], db'.orders[id])
  }

  lemma CreditLeavesOrders(db: DB, userId: nat, amount: int, id: nat, now: int)
    ensures var out := CreditOrder(db, userId, amount, id, now); out.Commit? ==> out.db.orders == db.orders
  {
  }

  lemma FinalizeKept(db: DB, id: nat, event: Event, copy: Order, now: int)
    requires id < |db.orders| && db.orders[id].status != Created
    ensures OrderKept(db, FinalizePaid(db, event, copy, now).After(db), id)
  {
    hide CreditOrder;
    if FinalizePaid(db, event, copy, now).Commit? {
      var other := event.outTradeNo;
      var paid := db.orders[other].(status := Paid, tradeNo := Clip(event.externalTradeNo), paidAt := Some(now));
      CreditLeavesOrders(db.(orders := db.orders[other := paid]), copy.userId, copy.amountMicro, other, now);
    }
  }

  lemma MarkPaidKept(db: DB, id: nat, other: nat, owner: nat, externalRef: string, now: int)
    requires id < |db.orders| && db.orders[id].status != Created
    ensures OrderKept(db, MarkPaid(db, other, owner, externalRef, now).After(db), id)
  {
    hide CreditOrder;
    if MarkPaid(db, other, owner, externalRef, now).Commit? {
      var order := db.orders[other];
      var paid := order.(status := Paid, tradeNo := externalRef, paidAt := Some(now));
      CreditLeavesOrders(StoreReceipt(db, MANUAL_PROVIDER, externalRef).(orders := db.orders[other := paid]),
                         order.userId, order.amountMicro, other, now);
    }
  }

  lemma RefundKeepsPaid(db: DB, id: nat, other: nat, owner: nat, fen: int, reclaim: bool, externalRef: string, now: int)
    requires id < |db.orders| && db.orders[id].status != Created
    ensures OrderKept(db, RefundOrder(db, other, owner, fen, reclaim, externalRef, now).After(db), id)
  {
    hide RefundShare, RefundFen, RefUsed, HasUnrefundedSub, Saturating;
  }

  /** No two-phase handler changes whether a decided order counts as paid. */
  lemma TransactKept(db: DB, work: Work, env: Env, id: nat)
    requires id < |db.orders| && db.orders[id].status != Created
    ensures OrderKept(db, Transact(db, work, env).After(db), id)
  {
    hide FinalizePaid, MarkPaid, RefundOrder, Cancel, RefundSubscription, RevokeGrant, Reconcile, Grant;
    match work
    case HookPaid(_, _) =>
    case HookAdmitted(_, event, copy) => FinalizeKept(db, id, event, copy, env.now);
    case ManualPaid(other, copy, ref) => MarkPaidKept(db, id, other, copy.userId, ref, env.now);
    case TopupRefund(other, copy, fen, reclaim, ref) =>
      RefundKeepsPaid(db, id, other, copy.userId, fen, reclaim, ref, env.now);
    case SubCancel(subId) => SubEndsLeaveOrders(db, subId, 0, 0, env.now);
    case SubRefund(subId, copy, amount) => SubEndsLeaveOrders(db, subId, copy.userId, amount, env.now);
    case GrantRevoke(subId, copy) => SubEndsLeaveOrders(db, subId, copy.userId, 0, env.now);
    case EntryReconcile(entryId, copy, result) =>
      ReconcileLeavesOrders(db, entryId, copy.userId, result, env.now, env.bps, env.windowSeconds);
    case SubGrant(userId, packageId, copy, qty, valid) =>
      GrantLeavesOrders(db, userId, packageId, qty, GrantSeconds(copy, valid), env.now, env.checkedAt);
  }

  lemma OrderWritesKept(db: DB, other: nat, tradeNo: string, userId: nat, provider: string, fen: int, rate: int,
                        ttlMinutes: Option<int>, now: int, id: nat)
    requires id < |db.orders| && db.orders[id].status != Created
    ensures OrderKept(db, StoreGatewayReply(db, other, tradeNo).After(db), id)
    ensures OrderKept(db, CreateOrder(db, userId, provider, fen, rate, now).After(db), id)
    ensures OrderKept(db, LapseOrders(db, ttlMinutes, now), id)
    ensures other != id ==> OrderKept(db, FailOrder(db, other).After(db), id)
    ensures |FailOrder(db, id).After(db).orders| == |db.orders|
    ensures FailOrder(db, id).After(db).orders[id].status == Failed
  {
    hide UsdMicroFromFen;
  }

  /** The one-transaction handlers that write orders. */
  predicate WritesOrders(action: Action) {
    action.NewOrder? || action.GatewayFailed? || action.GatewayReplied? || action.LapseStaleOrders?
  }

  lemma OthersLeaveOrders(db: DB, action: Action, env: Env)
    requires !WritesOrders(action)
    ensures Perform(db, action, env).After(db).orders == db.orders
  {
    hide Purchase, GrantCoupons, RevokeCoupon, CreateUser, ReferralBonuses, ConsumeBalance, ResetUsage, CreateOrder,
         StoreGatewayReply, LapseOrders, FailOrder, Expire, SetPaused, RecordPending;
    match action
    case Buy(userId, packageId, qty, coupon) =>
      PurchaseLeavesOrders(db, userId, packageId, qty, coupon, env.now, env.checkedAt, env.bps, env.windowSeconds);
    case WithdrawCoupon(couponId) =>
      CouponsLeaveOrders(db, couponId, [], CouponTemplate(false, false, 0, None), 0, None, env.now);
    case IssueCoupons(userIds, template, qty, expiresAt) =>
      CouponsLeaveOrders(db, 0, userIds, template, qty, expiresAt, env.now);
    case SignUp(ordinary, bonus, template, expiresAt) =>
      SignUpLeavesOrders(db, ordinary, bonus, template, expiresAt, env.now);
    case Refer(newUser, referrer, b1, b2) => BonusesLeaveOrders(db, newUser, referrer, b1, b2, env.now);
    case Consume(userId, cost, logId) =>
      ConsumeLeavesOrders(db, userId, cost, logId, env.now, env.bps, env.windowSeconds);
    case ResetCounters(scope) => ResetLeavesOrders(db, scope, env.now);
    case ExpireSub(subId) => SubWritesLeaveOrders(db, subId, false);
    case PauseSub(subId, paused) => SubWritesLeaveOrders(db, subId, paused);
    case LeavePending(userId, unmetered, estimate, cached, logId) =>
      PendingLeavesOrders(db, userId, unmetered, estimate, cached, logId, env.now);
    case _ =>
  }

  /** Of the one-transaction handlers only the write after a gateway error does. */
  lemma PerformKept(db: DB, action: Action, env: Env, id: nat)
    requires id < |db.orders| && db.orders[id].status != Created
    ensures action != GatewayFailed(id) ==> OrderKept(db, Perform(db, action, env).After(db), id)
    ensures action == GatewayFailed(id) ==>
              var db' := Perform(db, action, env).After(db);
              |db'.orders| == |db.orders| && db'.orders[id].status == Failed
  {
    hide Purchase, GrantCoupons, RevokeCoupon, CreateUser, ReferralBonuses, ConsumeBalance, ResetUsage, CreateOrder,
         StoreGatewayReply, LapseOrders, FailOrder, Expire, SetPaused, RecordPending, PaidState;
    match action
    case NewOrder(userId, provider, fen, rate) =>
      OrderWritesKept(db, 0, "", userId, provider, fen, rate, None, env.now, id);
    case GatewayFailed(other) => OrderWritesKept(db, other, "", 0, "", 0, 0, None, env.now, id);
    case GatewayReplied(other, tradeNo) => OrderWritesKept(db, other, tradeNo, 0, "", 0, 0, None, env.now, id);
    case LapseStaleOrders(ttlMinutes) => OrderWritesKept(db, 0, "", 0, "", 0, 0, ttlMinutes, env.now, id);
    case _ =>
      OthersLeaveOrders(db, action, env);
      hide Perform;
  }

  // --- Steps and runs -------------------------------------------------------------------------

  predicate FailsOrder(step: Step, id: nat) {
    step.Do? && step.action == GatewayFailed(id)
  }

  /** From any state whatsoever, a step takes a decided order out of paid and refunded if and only
      if it is the unguarded write after a gateway error, and never puts one there. */
  lemma PaidLostOnlyByGatewayError(s: Sys, step: Step, id: nat)
    requires id < |s.db.orders| && s.db.orders[id].status != Created
    ensures id < |Apply(s, step).db.orders| && Apply(s, step).db.orders[id].status != Created
    ensures PaidState(Apply(s, step).db.orders[id]) <==> PaidState(s.db.orders[id]) && !FailsOrder(step, id)
  {
    hide Transact, Perform;
    match step
    case Receive(_, _, _) =>
    case Begin(_, _) =>
    case Abandon(_) =>
    case Finish(slot, env) =>
      if slot in s.slots {
        TransactKept(s.db, s.slots[slot], env, id);
      }
    case Do(action, env) => PerformKept(s.db, action, env, id);
  }

  /** Over every run: an order that is paid or refunded after n steps still is at the end if and
      only if no later step is the write after a gateway error for it. */
  lemma {:induction false} PaidUnlessGatewayError(linkIndex: bool, steps: seq<Step>, n: nat, id: nat)
    requires n <= |steps| && id < |Run(linkIndex, steps[..n]).db.orders|
    requires Run(linkIndex, steps[..n]).db.orders[id].status != Created
    ensures var o := Run(linkIndex, steps[..n]).db.orders[id];
            var db := Run(linkIndex, steps).db;
            && id < |db.orders| && db.orders[id].status != Created
            && (PaidState(db.orders[id]) <==>
                  PaidState(o) && forall k :: n <= k < |steps| ==> !FailsOrder(steps[k], id))
  {
    hide Apply, FailsOrder, PaidState;
    if n == |steps| {
      assert steps[..n] == steps;
    } else {
      var last := |steps| - 1;
      var front := steps[..last];
      assert front[..n] == steps[..n];
      PaidUnlessGatewayError(linkIndex, front, n, id);
      PaidLostOnlyByGatewayError(Run(linkIndex, front), steps[last], id);
      assert forall k :: n <= k < last ==> front[k] == steps[k];
    }
  }
}
