/** Every movement of money in every run: what one step does to every user row, computed from the
    rows as they are when the transaction runs, whatever stale copy the handler still holds. */
module Movements {
  import opened Options
  import opened Money
  import opened Model
  import opened Ledger
  import opened Topups
  import opened Rewards
  import opened Subscriptions
  import opened Charges
  import opened UsageReset
  import opened Invariants
  import opened TopupProofs
  import opened PurchaseProofs
  import opened ChargeProofs
  import opened Effects
  import opened Runs

  // --- The expected rows ----------------------------------------------------------------------

  /** A paid order's locked amount reaches its owner. */
  function Credited(u: User, applies: bool, amount: int): User {
    if applies then u.(quota := u.quota + amount, paidQuota := u.paidQuota + amount) else u
  }

  /** A refund takes the rounded share out of paid_quota, down to zero, and out of quota if reclaimed. */
  function Refunded(u: User, o: Order, requestedFen: int, reclaim: bool): User {
    var share := Share(o.amountMicro, o.moneyFen, o.refundedFen, o.refundedFen + RefundFen(o, requestedFen));
    u.(quota := u.quota - (if reclaim then share else 0), paidQuota := Saturating(u.paidQuota, share))
  }

  /** A spend leaves the spender's quota, uses up the paid part that the balance no longer covers, and
      brings an eligible referrer the reward. */
  function Spent(db: DB, spender: nat, spend: int, env: Env, at: int, u: nat): User
    requires spender < |db.users| && u < |db.users|
  {
    var charged := db.users[spender].(quota := db.users[spender].quota - spend);
    var reward := RewardAmount(charged, spender, spend, env.bps, env.windowSeconds, at);
    if u == spender then (if spend > 0 then charged.(paidQuota := RemainingPaid(charged)) else charged)
    else Moved(db.users[u], Gains(db, charged, u) && reward > 0, reward)
  }

  /** Row u after a two-phase handler committed. */
  function RowAfterWork(db: DB, work: Work, env: Env, u: nat): User
    requires u < |db.users|
  {
    var row := db.users[u];
    match work
    case HookAdmitted(_, event, _) =>
      if event.outTradeNo < |db.orders| then
        Credited(row, u == db.orders[event.outTradeNo].userId, db.orders[event.outTradeNo].amountMicro)
      else row
    case ManualPaid(id, _, _) =>
      if id < |db.orders| then Credited(row, u == db.orders[id].userId, db.orders[id].amountMicro) else row
    case TopupRefund(id, _, fen, reclaim, _) =>
      if id < |db.orders| && u == db.orders[id].userId then Refunded(row, db.orders[id], fen, reclaim) else row
    case SubRefund(id, _, amount) => Moved(row, id < |db.subs| && u == db.subs[id].userId, amount)
    case EntryReconcile(id, _, result) =>
      if result == Charged && id < |db.entries| && db.entries[id].userId < |db.users| then
        Spent(db, db.entries[id].userId, db.entries[id].estimatedCost, env, db.entries[id].occurredAt, u)
      else row
    case _ => row
  }

  /** Row u after a one-transaction handler committed. */
  function RowAfterAction(db: DB, action: Action, env: Env, u: nat): User
    requires u < |db.users|
  {
    var row := db.users[u];
    match action
    case Buy(userId, packageId, qty, coupon) =>
      if userId < |db.users| && packageId < |db.packages| then
        Spent(db, userId, TotalPrice(db, packageId, qty, coupon), env, env.now, u)
      else row
    case Consume(userId, cost, _) =>
      if userId < |db.users| && db.users[userId].quota >= cost then Spent(db, userId, cost, env, env.now, u) else row
    case Refer(newUser, referrer, referrerBonus, refereeBonus) =>
      if u == newUser then Relate(row, referrer, env.now).(quota := row.quota + refereeBonus)
      else Moved(row, u == referrer, referrerBonus)
    case EditUser(userId, ordinary, enabled) =>
      if u == userId then row.(ordinary := ordinary, enabled := enabled) else row
    case _ => row
  }

  /** The user table after a step. */
  function UsersAfter(s: Sys, step: Step): seq<User> {
    var n := |s.db.users|;
    match step
    case Finish(slot, env) =>
      if slot in s.slots && Transact(s.db, s.slots[slot], env).Commit? then
        seq(n, u requires 0 <= u < n => RowAfterWork(s.db, s.slots[slot], env, u))
      else s.db.users
    case Do(action, env) =>
      if Perform(s.db, action, env).Commit? then
        seq(n, u requires 0 <= u < n => RowAfterAction(s.db, action, env, u))
        + (if action.SignUp? then [User(action.signupBonus, 0, None, None, action.ordinary, true)] else [])
      else s.db.users
    case _ => s.db.users
  }

  // --- Spending ----------------------------------------------------------------------------------

  /** The spender's quota has been debited and nothing else has happened to any row. */
  ghost predicate Debited(db: DB, db1: DB, spender: nat, spend: int) {
    && |db1.users| == |db.users| && spender < |db.users|
    && forall u: nat :: u < |db.users| ==> db1.users[u] == Moved(db.users[u], u == spender, -spend)
  }

  lemma SpentRows(db: DB, db1: DB, spender: nat, spend: nat, env: Env, at: int, link: Link, db': DB)
    requires Debited(db, db1, spender, spend)
    requires SpendReward(db1, spender, spend, env.bps, env.windowSeconds, at, link) == Commit(db')
    ensures |db'.users| == |db.users|
    ensures forall u: nat :: u < |db.users| ==> db'.users[u] == Spent(db, spender, spend, env, at, u)
  {
    if spend > 0 {
      RewardMoves(db1, spender, spend, env.bps, env.windowSeconds, at, link);
      hide SpendReward, RewardAmount, RemainingPaid;
    } else {
      hide RemainingPaid;
    }
  }

  lemma ConsumeRows(db: DB, userId: nat, cost: nat, logId: Option<nat>, env: Env, db': DB)
    requires ConsumeBalance(db, userId, cost, logId, env.now, env.bps, env.windowSeconds) == Commit(db')
    ensures |db'.users| == |db.users|
    ensures forall u: nat :: u < |db.users| ==> db'.users[u] == RowAfterAction(db, Consume(userId, cost, logId), env, u)
  {
    hide SpendReward, Spent;
    if db.users[userId].quota >= cost {
      var db1 := Post(db, userId, -(cost as int), ApiConsumeBalance, LogLink(logId), env.now).db;
      SpentRows(db, db1, userId, cost, env, env.now, LogLink(logId), db');
    }
  }

  lemma BuyRows(db: DB, userId: nat, packageId: nat, qty: nat, coupon: Option<nat>, env: Env, db': DB)
    requires Inv(db)
    requires Purchase(db, userId, packageId, qty, coupon, env.now, env.checkedAt, env.bps, env.windowSeconds)
             == Commit(db')
    ensures |db'.users| == |db.users|
    ensures forall u: nat :: u < |db.users| ==>
              db'.users[u] == RowAfterAction(db, Buy(userId, packageId, qty, coupon), env, u)
  {
    hide InvUpTo, PostUnits, SpendReward, Spent, BoughtAmounts, BoughtSubs, TotalPrice;
    PurchaseKeeps(db, userId, packageId, qty, coupon, env.now, env.checkedAt, env.bps, env.windowSeconds);
    BoughtPosted(db, userId, packageId, qty, coupon, env.now, env.checkedAt);
    BoughtPrices(db, userId, packageId, qty, coupon, env.now);
    TotalNonnegative(db, userId, packageId, qty, coupon, env.now, env.checkedAt);
    var total := TotalPrice(db, packageId, qty, coupon);
    var rows := WithRows(db, userId, packageId, qty, coupon, env.now);
    var db1 := PostUnits(rows, userId, PurchaseSub, BoughtAmounts(db, packageId, qty, coupon), |db.subs|, env.now).db;
    SpentRows(db, db1, userId, total, env, env.now, SubLink(|db.subs|), db');
  }

  lemma TotalNonnegative(db: DB, userId: nat, packageId: nat, qty: nat, coupon: Option<nat>, now: int, checkedAt: int)
    requires Purchasable(db, userId, packageId, qty, coupon, now, checkedAt)
    ensures TotalPrice(db, packageId, qty, coupon) >= 0
  {
    if coupon.Some? {
      PriceBounds(db.coupons[coupon.value], db.packages[packageId].price);
    }
  }

  lemma ReconcileRows(db: DB, id: nat, copy: Entry, result: ReconcileResult, env: Env, db': DB)
    requires Inv(db) && id < |db.entries| && copy == db.entries[id]
    requires Reconcile(db, id, copy.userId, result, env.now, env.bps, env.windowSeconds) == Commit(db')
    ensures |db'.users| == |db.users|
    ensures forall u: nat :: u < |db.users| ==>
              db'.users[u] == RowAfterWork(db, EntryReconcile(id, copy, result), env, u)
  {
    hide InvUpTo, Reconcile, RewardAmount, RemainingPaid;
    ReconcileMoves(db, id, result, env.now, env.bps, env.windowSeconds, db');
    ReconcileKeeps(db, id, result, env.now, env.bps, env.windowSeconds);
  }

  // --- The other handlers ----------------------------------------------------------------------------

  lemma RefundRows(db: DB, id: nat, copy: Order, fen: nat, reclaim: bool, ref: string, env: Env, db': DB)
    requires Inv(db) && OrderCopy(db, id, copy)
    requires RefundOrder(db, id, copy.userId, fen, reclaim, ref, env.now) == Commit(db')
    ensures |db'.users| == |db.users|
    ensures forall u: nat :: u < |db.users| ==>
              db'.users[u] == RowAfterWork(db, TopupRefund(id, copy, fen, reclaim, ref), env, u)
  {
    hide InvUpTo, RefundOrder, Share;
    RefundMoves(db, id, fen, reclaim, ref, env.now, db');
  }

  lemma GrantRowsSame(db: DB, userId: nat, packageId: nat, qty: nat, seconds: int, now: int, checkedAt: int)
    requires Inv(db)
    ensures Grant(db, userId, packageId, qty, seconds, now, checkedAt).After(db).users == db.users
  {
    hide InvUpTo, Grant, GrantedSubs;
    GrantKeeps(db, userId, packageId, qty, seconds, now, checkedAt);
  }

  lemma ResetRowsSame(db: DB, scope: ResetScope, now: int)
    requires Inv(db)
    ensures ResetUsage(db, scope, now).After(db).users == db.users
  {
    hide InvUpTo, ResetUsage, UsageCleared, ResetWritten;
    ResetKeeps(db, scope, now);
  }

  lemma OrderWritesRowsSame(db: DB, id: nat, tradeNo: string, userId: nat, provider: string, fen: int, rate: int,
                            ttlMinutes: Option<int>, now: int)
    ensures CreateOrder(db, userId, provider, fen, rate, now).After(db).users == db.users
    ensures FailOrder(db, id).After(db).users == db.users
    ensures StoreGatewayReply(db, id, tradeNo).After(db).users == db.users
    ensures LapseOrders(db, ttlMinutes, now).users == db.users
  {
  }

  lemma SubWritesRowsSame(db: DB, id: nat, paused: bool, now: int)
    ensures Cancel(db, id, now).After(db).users == db.users
    ensures Expire(db, id).After(db).users == db.users
    ensures SetPaused(db, id, paused).After(db).users == db.users
    ensures RevokeCoupon(db, id, now).After(db).users == db.users
  {
  }

  lemma IssueRowsSame(db: DB, userIds: seq<nat>, template: CouponTemplate, qty: nat, expiresAt: Option<int>)
    ensures GrantCoupons(db, userIds, template, qty, expiresAt).After(db).users == db.users
  {
  }

  lemma PendingRowsSame(db: DB, userId: nat, unmetered: bool, cost: int, cachedBalance: int, logId: Option<nat>,
                        at: int)
    ensures RecordPending(db, userId, unmetered, cost, cachedBalance, logId, at).After(db).users == db.users
  {
  }

  lemma WorkRows(db: DB, work: Work, env: Env)
    requires Inv(db) && Fits(db, work) && Transact(db, work, env).Commit?
    ensures var db' := Transact(db, work, env).db;
            && |db'.users| == |db.users|
            && forall u: nat :: u < |db.users| ==> db'.users[u] == RowAfterWork(db, work, env, u)
  {
    hide InvUpTo, FinalizePaid, MarkPaid, RefundOrder, Cancel, RefundSubscription, RevokeGrant, Reconcile, Grant, Spent;
    var db' := Transact(db, work, env).db;
    match work
    case HookPaid(_, _) =>
    case HookAdmitted(provider, event, copy) => FinalizeMoves(db, event, copy, env.now);
    case ManualPaid(id, copy, ref) => MarkPaidMoves(db, id, copy.userId, ref, env.now, 0, 0);
    case TopupRefund(id, copy, fen, reclaim, ref) => RefundRows(db, id, copy, fen, reclaim, ref, env, db');
    case SubCancel(id) => SubWritesRowsSame(db, id, false, env.now);
    case SubRefund(id, copy, amount) => SubRefundMoves(db, id, copy, amount, env.now);
    case GrantRevoke(id, copy) => RevokeMoves(db, id, copy.userId, env.now);
    case EntryReconcile(id, copy, result) => ReconcileRows(db, id, copy, result, env, db');
    case SubGrant(userId, packageId, copy, qty, valid) =>
      GrantRowsSame(db, userId, packageId, qty, GrantSeconds(copy, valid), env.now, env.checkedAt);
  }

  lemma ActionRows(db: DB, action: Action, env: Env)
    requires Inv(db) && Perform(db, action, env).Commit? && !action.SignUp?
    ensures var db' := Perform(db, action, env).db;
            && |db'.users| == |db.users|
            && forall u: nat :: u < |db.users| ==> db'.users[u] == RowAfterAction(db, action, env, u)
  {
    hide InvUpTo, CreateOrder, FailOrder, StoreGatewayReply, LapseOrders, Purchase, Expire, SetPaused, RevokeCoupon,
         GrantCoupons, CreateUser, ReferralBonuses, ConsumeBalance, RecordPending, ResetUsage, Spent;
    var db' := Perform(db, action, env).db;
    match action
    case NewOrder(userId, provider, fen, rate) =>
      OrderWritesRowsSame(db, 0, "", userId, provider, fen, rate, None, env.now);
    case GatewayFailed(id) => OrderWritesRowsSame(db, id, "", 0, "", 0, 0, None, env.now);
    case GatewayReplied(id, tradeNo) => OrderWritesRowsSame(db, id, tradeNo, 0, "", 0, 0, None, env.now);
    case LapseStaleOrders(ttlMinutes) => OrderWritesRowsSame(db, 0, "", 0, "", 0, 0, ttlMinutes, env.now);
    case Buy(userId, packageId, qty, coupon) => BuyRows(db, userId, packageId, qty, coupon, env, db');
    case ExpireSub(id) => SubWritesRowsSame(db, id, false, env.now);
    case PauseSub(id, paused) => SubWritesRowsSame(db, id, paused, env.now);
    case WithdrawCoupon(id) => SubWritesRowsSame(db, id, false, env.now);
    case IssueCoupons(userIds, template, qty, expiresAt) => IssueRowsSame(db, userIds, template, qty, expiresAt);
    case Refer(newUser, referrer, b1, b2) => BonusesMove(db, newUser, referrer, b1, b2, env.now);
    case Consume(userId, cost, logId) => ConsumeRows(db, userId, cost, logId, env, db');
    case LeavePending(userId, unmetered, estimate, cached, logId) =>
      PendingRowsSame(db, userId, unmetered, estimate, cached, logId, env.now);
    case ResetCounters(scope) => ResetRowsSame(db, scope, env.now);
    case _ =>
  }

  lemma SignUpRows(db: DB, action: Action, env: Env)
    requires Inv(db) && action.SignUp?
    ensures var out := Perform(db, action, env);
            && out.Commit?
            && out.db.users == db.users + [User(action.signupBonus, 0, None, None, action.ordinary, true)]
  {
    hide InvUpTo, CreateUser;
    SignUpMoves(db, action.ordinary, action.signupBonus, action.welcome, action.expiresAt, env.now);
  }

  // --- Every run -----------------------------------------------------------------------------------------

  /** In every reachable state, whatever step comes next and however stale the copy it was admitted
      on: the whole user table afterwards is the expected one. So each step that moves money moves
      exactly its amount of exactly the users concerned, and no other step or user moves any. */
  lemma EveryMovement(linkIndex: bool, steps: seq<Step>, step: Step)
    ensures Apply(Run(linkIndex, steps), step).db.users == UsersAfter(Run(linkIndex, steps), step)
  {
    hide InvUpTo, Run, Fits, Transact, Perform, RowAfterWork, RowAfterAction;
    var s := Run(linkIndex, steps);
    Reachable(linkIndex, steps);
    match step {
      case Finish(slot, env) =>
        if slot in s.slots {
          if s.slots[slot].HookPaid? {
            HookRows(s.db, s.slots[slot], env);
            LookupKeeps(s, slot, s.slots[slot].provider, s.slots[slot].event);
          } else if Transact(s.db, s.slots[slot], env).Commit? {
            WorkRows(s.db, s.slots[slot], env);
          }
        }
      case Do(action, env) =>
        if action.SignUp? {
          SignUpRows(s.db, action, env);
          SignUpSpares(s.db, action, env);
        } else if Perform(s.db, action, env).Commit? {
          ActionRows(s.db, action, env);
        }
      case _ =>
    }
  }

  lemma HookRows(db: DB, work: Work, env: Env)
    requires work.HookPaid?
    ensures forall u: nat :: u < |db.users| ==> RowAfterWork(db, work, env, u) == db.users[u]
  {
  }

  lemma SignUpSpares(db: DB, action: Action, env: Env)
    requires action.SignUp?
    ensures forall u: nat :: u < |db.users| ==> RowAfterAction(db, action, env, u) == db.users[u]
  {
  }
}
