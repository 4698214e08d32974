/** What no transaction ever undoes: the two-state relation between an earlier and a later
    committed state. */
module Evolution {
  import opened Options
  import opened Model
  import opened Ledger
  import opened Topups
  import opened Rewards
  import opened Subscriptions
  import opened Charges
  import opened UsageReset
  import opened Invariants
  import opened TopupProofs
  import opened RewardProofs
  import opened SubscriptionProofs

  // --- The relation -----------------------------------------------------------------------

  /** An order keeps its identity, is never waiting again, and is never credited later on. */
  ghost predicate OrderEvolves(o: Order, o': Order) {
    && SameOrder(o, o')
    && (o.status != Created ==> o'.status != Created && o'.paidAt == o.paidAt)
    && o.refundedFen <= o'.refundedFen
  }

  /** Refunded and revoked are final, and a cancellation time is never rewritten. */
  ghost predicate SubEvolves(s: Sub, s': Sub) {
    && SameSub(s, s')
    && (s.status == SubRefunded ==> s'.status == SubRefunded)
    && (s.status == Revoked ==> s'.status == Revoked)
    && (s.canceledAt.Some? ==> s'.canceledAt == s.canceledAt)
  }

  /** A coupon that left the available state never changes again. */
  ghost predicate CouponEvolves(c: Coupon, c': Coupon) {
    && c' == c.(status := c'.status, usedAt := c'.usedAt, usedOn := c'.usedOn, saving := c'.saving)
    && (c.status != Available ==> c' == c)
  }

  ghost predicate OrdersEvolve(xs: seq<Order>, ys: seq<Order>) {
    |xs| <= |ys| && forall i :: 0 <= i < |xs| ==> OrderEvolves(xs[i], ys[i])
  }

  ghost predicate SubsEvolve(xs: seq<Sub>, ys: seq<Sub>) {
    |xs| <= |ys| && forall i :: 0 <= i < |xs| ==> SubEvolves(xs[i], ys[i])
  }

  ghost predicate CouponsEvolve(xs: seq<Coupon>, ys: seq<Coupon>) {
    |xs| <= |ys| && forall i :: 0 <= i < |xs| ==> CouponEvolves(xs[i], ys[i])
  }

  ghost predicate Evolves(db: DB, db': DB) {
    && |db.users| <= |db'.users|
    && OrdersEvolve(db.orders, db'.orders)
    && SubsEvolve(db.subs, db'.subs)
    && CouponsEvolve(db.coupons, db'.coupons)
    && db.receipts <= db'.receipts
    && db.refunds <= db'.refunds
    && db.entries <= db'.entries
    && db.recons <= db'.recons
    && db.linkIndex == db'.linkIndex
  }

  lemma EvolvesSame(db: DB)
    ensures Evolves(db, db)
  {
  }

  lemma OrdersEvolveTrans(xs: seq<Order>, ys: seq<Order>, zs: seq<Order>)
    requires OrdersEvolve(xs, ys) && OrdersEvolve(ys, zs)
    ensures OrdersEvolve(xs, zs)
  {
    forall i | 0 <= i < |xs| ensures OrderEvolves(xs[i], zs[i]) {
      assert OrderEvolves(xs[i], ys[i]) && OrderEvolves(ys[i], zs[i]);
    }
  }

  lemma SubsEvolveTrans(xs: seq<Sub>, ys: seq<Sub>, zs: seq<Sub>)
    requires SubsEvolve(xs, ys) && SubsEvolve(ys, zs)
    ensures SubsEvolve(xs, zs)
  {
    forall i | 0 <= i < |xs| ensures SubEvolves(xs[i], zs[i]) {
      assert SubEvolves(xs[i], ys[i]) && SubEvolves(ys[i], zs[i]);
    }
  }

  lemma CouponsEvolveTrans(xs: seq<Coupon>, ys: seq<Coupon>, zs: seq<Coupon>)
    requires CouponsEvolve(xs, ys) && CouponsEvolve(ys, zs)
    ensures CouponsEvolve(xs, zs)
  {
    forall i | 0 <= i < |xs| ensures CouponEvolves(xs[i], zs[i]) {
      assert CouponEvolves(xs[i], ys[i]) && CouponEvolves(ys[i], zs[i]);
    }
  }

  lemma EvolvesTrans(a: DB, b: DB, c: DB)
    requires Evolves(a, b) && Evolves(b, c)
    ensures Evolves(a, c)
  {
    hide OrdersEvolve, SubsEvolve, CouponsEvolve;
    OrdersEvolveTrans(a.orders, b.orders, c.orders);
    SubsEvolveTrans(a.subs, b.subs, c.subs);
    CouponsEvolveTrans(a.coupons, b.coupons, c.coupons);
  }

  // --- Single tables -------------------------------------------------------------------------

  lemma PostEvolves(db: DB, userId: nat, amount: int, kind: Kind, link: Link, at: int)
    ensures var out := Post(db, userId, amount, kind, link, at); out.Commit? ==> Evolves(db, out.db)
  {
  }

  lemma OrderRowEvolves(db: DB, id: nat, o: Order)
    requires id < |db.orders| && OrderEvolves(db.orders[id], o)
    ensures Evolves(db, db.(orders := db.orders[id := o]))
  {
  }

  lemma SubRowEvolves(db: DB, id: nat, s: Sub)
    requires id < |db.subs| && SubEvolves(db.subs[id], s)
    ensures Evolves(db, SetSub(db, id, s))
  {
  }

  lemma CouponRowEvolves(db: DB, id: nat, c: Coupon)
    requires id < |db.coupons| && CouponEvolves(db.coupons[id], c)
    ensures Evolves(db, db.(coupons := db.coupons[id := c]))
  {
  }

  lemma UsersEvolve(db: DB, users: seq<User>)
    requires |db.users| <= |users|
    ensures Evolves(db, db.(users := users))
  {
  }

  // --- Orders -----------------------------------------------------------------------------------

  lemma CreateOrderEvolves(db: DB, userId: nat, provider: string, fen: int, rate: int, now: int)
    ensures var out := CreateOrder(db, userId, provider, fen, rate, now); out.Commit? ==> Evolves(db, out.db)
  {
  }

  lemma FailOrderEvolves(db: DB, id: nat)
    ensures var out := FailOrder(db, id); out.Commit? ==> Evolves(db, out.db)
  {
    if id < |db.orders| {
      OrderRowEvolves(db, id, db.orders[id].(status := Failed));
    }
  }

  lemma GatewayReplyEvolves(db: DB, id: nat, tradeNo: string)
    ensures var out := StoreGatewayReply(db, id, tradeNo); out.Commit? ==> Evolves(db, out.db)
  {
    if id < |db.orders| {
      OrderRowEvolves(db, id, db.orders[id].(tradeNo := tradeNo));
    }
  }

  lemma LapseEvolves(db: DB, ttlMinutes: Option<int>, now: int)
    ensures Evolves(db, LapseOrders(db, ttlMinutes, now))
  {
  }

  lemma CreditEvolves(db: DB, userId: nat, amount: int, id: nat, now: int)
    ensures var out := CreditOrder(db, userId, amount, id, now); out.Commit? ==> Evolves(db, out.db)
  {
    if userId < |db.users| {
      var users := db.users[userId := db.users[userId].(paidQuota := db.users[userId].paidQuota + amount)];
      UsersEvolve(db, users);
      PostEvolves(db.(users := users), userId, amount, Topup, OrderLink(id), now);
      if CreditOrder(db, userId, amount, id, now).Commit? {
        EvolvesTrans(db, db.(users := users), CreditOrder(db, userId, amount, id, now).db);
      }
    }
  }

  lemma FinalizeEvolves(db: DB, event: Event, copy: Order, now: int)
    ensures var out := FinalizePaid(db, event, copy, now); out.Commit? ==> Evolves(db, out.db)
  {
    hide CreditOrder, Evolves;
    var id := event.outTradeNo;
    if id < |db.orders| && db.orders[id].status == Created {
      var o := db.orders[id].(status := Paid, tradeNo := Clip(event.externalTradeNo), paidAt := Some(now));
      var db1 := db.(orders := db.orders[id := o]);
      OrderRowEvolves(db, id, o);
      CreditEvolves(db1, copy.userId, copy.amountMicro, id, now);
      if FinalizePaid(db, event, copy, now).Commit? {
        EvolvesTrans(db, db1, FinalizePaid(db, event, copy, now).db);
      }
    }
  }

  lemma ReceiptEvolves(db: DB, provider: string, nonce: string)
    ensures Evolves(db, StoreReceipt(db, provider, nonce))
  {
  }

  lemma MarkPaidEvolves(db: DB, id: nat, owner: nat, externalRef: string, now: int)
    ensures var out := MarkPaid(db, id, owner, externalRef, now); out.Commit? ==> Evolves(db, out.db)
  {
    hide CreditOrder, Evolves;
    var out := MarkPaid(db, id, owner, externalRef, now);
    if out.Commit? {
      var o := db.orders[id].(status := Paid, tradeNo := externalRef, paidAt := Some(now));
      var db1 := StoreReceipt(db, MANUAL_PROVIDER, externalRef);
      var db2 := db1.(orders := db1.orders[id := o]);
      ReceiptEvolves(db, MANUAL_PROVIDER, externalRef);
      OrderRowEvolves(db1, id, o);
      CreditEvolves(db2, o.userId, o.amountMicro, id, now);
      EvolvesTrans(db, db1, db2);
      EvolvesTrans(db, db2, out.db);
    }
  }

  lemma RefundEvolves(db: DB, id: nat, owner: nat, requestedFen: int, reclaim: bool, externalRef: string, now: int)
    requires id < |db.orders| ==> owner == db.orders[id].userId
    ensures var out := RefundOrder(db, id, owner, requestedFen, reclaim, externalRef, now);
            out.Commit? ==> Evolves(db, out.db)
  {
    if RefundOrder(db, id, owner, requestedFen, reclaim, externalRef, now).Commit? {
      var o', r, e := RefundEffect(db, id, owner, requestedFen, reclaim, externalRef, now);
    }
  }

  // --- Bonuses and charges -------------------------------------------------------------------------

  lemma SpendRewardEvolves(db: DB, userId: nat, spend: int, bps: int, windowSeconds: int, at: int, link: Link)
    ensures var out := SpendReward(db, userId, spend, bps, windowSeconds, at, link); out.Commit? ==> Evolves(db, out.db)
  {
    SpendRewardFrame(db, userId, spend, bps, windowSeconds, at, link);
  }

  lemma BonusEvolves(db: DB, userId: nat, amount: nat, link: Link, at: int)
    ensures var out := Bonus(db, userId, amount, link, at); out.Commit? ==> Evolves(db, out.db)
  {
    PostEvolves(db, userId, amount, BonusCredit, link, at);
    EvolvesSame(db);
  }

  lemma CouponsAppendEvolve(db: DB, added: seq<Coupon>)
    ensures Evolves(db, db.(coupons := db.coupons + added))
  {
  }

  lemma CreateUserEvolves(db: DB, ordinary: bool, signupBonus: nat, template: Option<CouponTemplate>,
                          expiresAt: Option<int>, at: int)
    ensures var out := CreateUser(db, ordinary, signupBonus, template, expiresAt, at);
            out.Commit? ==> Evolves(db, out.db)
  {
    hide Evolves, Bonus;
    var out := CreateUser(db, ordinary, signupBonus, template, expiresAt, at);
    if out.Commit? {
      var id := |db.users|;
      var db1 := db.(users := db.users + [User(0, 0, None, None, ordinary, true)]);
      var db2 := Bonus(db1, id, signupBonus, UserLink(id), at).db;
      UsersEvolve(db, db1.users);
      BonusEvolves(db1, id, signupBonus, UserLink(id), at);
      EvolvesTrans(db, db1, db2);
      if template.Some? && template.value.enabled {
        CouponsAppendEvolve(db2, [FromTemplate(id, template.value, expiresAt)]);
        EvolvesTrans(db, db2, out.db);
      }
    }
  }

  lemma ReferralEvolves(db: DB, newUser: nat, referrer: nat, referrerBonus: nat, refereeBonus: nat, at: int)
    ensures var out := ReferralBonuses(db, newUser, referrer, referrerBonus, refereeBonus, at);
            out.Commit? ==> Evolves(db, out.db)
  {
    hide Evolves, Bonus;
    var out := ReferralBonuses(db, newUser, referrer, referrerBonus, refereeBonus, at);
    if out.Commit? {
      var db1 := db.(users := db.users[newUser := Relate(db.users[newUser], referrer, at)]);
      var db2 := Bonus(db1, referrer, referrerBonus, UserLink(newUser), at).db;
      UsersEvolve(db, db1.users);
      BonusEvolves(db1, referrer, referrerBonus, UserLink(newUser), at);
      BonusEvolves(db2, newUser, refereeBonus, UserLink(referrer), at);
      EvolvesTrans(db, db1, db2);
      EvolvesTrans(db, db2, out.db);
    }
  }

  lemma ConsumeEvolves(db: DB, userId: nat, cost: nat, logId: Option<nat>, at: int, bps: int, windowSeconds: int)
    ensures var out := ConsumeBalance(db, userId, cost, logId, at, bps, windowSeconds);
            out.Commit? ==> Evolves(db, out.db)
  {
    hide SpendReward;
    var out := ConsumeBalance(db, userId, cost, logId, at, bps, windowSeconds);
    if out.Commit? && db.users[userId].quota >= cost {
      var db1 := Post(db, userId, -(cost as int), ApiConsumeBalance, LogLink(logId), at).db;
      PostEvolves(db, userId, -(cost as int), ApiConsumeBalance, LogLink(logId), at);
      SpendRewardEvolves(db1, userId, cost, bps, windowSeconds, at, LogLink(logId));
      EvolvesTrans(db, db1, out.db);
    }
  }

  lemma RecordPendingEvolves(db: DB, userId: nat, unmetered: bool, cost: int, cachedBalance: int,
                             logId: Option<nat>, at: int)
    ensures var out := RecordPending(db, userId, unmetered, cost, cachedBalance, logId, at);
            out.Commit? ==> Evolves(db, out.db)
  {
  }

  lemma ChargePendingEvolves(db: DB, id: nat, now: int, bps: int, windowSeconds: int)
    requires id < |db.entries|
    ensures var out := ChargePending(db, id, now, bps, windowSeconds); out.Commit? ==> Evolves(db, out.db)
  {
    hide SpendReward;
    var out := ChargePending(db, id, now, bps, windowSeconds);
    var e := db.entries[id];
    if out.Commit? {
      var db1 := Post(db, e.userId, -e.estimatedCost, AdminAdjust, EntryLink(id), now).db;
      PostEvolves(db, e.userId, -e.estimatedCost, AdminAdjust, EntryLink(id), now);
      SpendRewardEvolves(db1, e.userId, e.estimatedCost, bps, windowSeconds, e.occurredAt, EntryLink(id));
      EvolvesTrans(db, db1, out.db);
    }
  }

  lemma ReconcileEvolves(db: DB, id: nat, owner: nat, result: ReconcileResult, now: int, bps: int, windowSeconds: int)
    ensures var out := Reconcile(db, id, owner, result, now, bps, windowSeconds); out.Commit? ==> Evolves(db, out.db)
  {
    hide ChargePending;
    var out := Reconcile(db, id, owner, result, now, bps, windowSeconds);
    if out.Commit? {
      ChargePendingEvolves(db, id, now, bps, windowSeconds);
      EvolvesSame(db);
      var db1 := if result == Charged then ChargePending(db, id, now, bps, windowSeconds).db else db;
      assert Evolves(db1, out.db);
      EvolvesTrans(db, db1, out.db);
    }
  }

  // --- Subscriptions -----------------------------------------------------------------------------------

  lemma {:induction false} UnitsEvolve(db: DB, userId: nat, kind: Kind, amounts: seq<int>, firstSub: nat, at: int)
    ensures var out := PostUnits(db, userId, kind, amounts, firstSub, at); out.Commit? ==> Evolves(db, out.db)
    decreases |amounts|
  {
    hide Evolves, Post;
    if amounts == [] {
      EvolvesSame(db);
    } else {
      var posted := Post(db, userId, amounts[0], kind, SubLink(firstSub), at);
      if posted.Commit? {
        PostEvolves(db, userId, amounts[0], kind, SubLink(firstSub), at);
        UnitsEvolve(posted.db, userId, kind, amounts[1..], firstSub + 1, at + 1);
        var out := PostUnits(posted.db, userId, kind, amounts[1..], firstSub + 1, at + 1);
        if out.Commit? {
          EvolvesTrans(db, posted.db, out.db);
        }
      }
    }
  }

  lemma SubsAppendEvolve(db: DB, added: seq<Sub>)
    ensures Evolves(db, db.(subs := db.subs + added))
  {
  }

  lemma UseCouponEvolves(db: DB, couponId: Option<nat>, subId: nat, saving: int, now: int)
    requires couponId.Some? && couponId.value < |db.coupons| ==> db.coupons[couponId.value].status == Available
    ensures Evolves(db, UseCoupon(db, couponId, subId, saving, now))
  {
  }

  lemma PurchaseEvolves(db: DB, userId: nat, packageId: nat, qty: nat, couponId: Option<nat>, now: int, checkedAt: int,
                        bps: int, windowSeconds: int)
    ensures var out := Purchase(db, userId, packageId, qty, couponId, now, checkedAt, bps, windowSeconds);
            out.Commit? ==> Evolves(db, out.db)
  {
    hide Evolves, SpendReward, PostUnits;
    var out := Purchase(db, userId, packageId, qty, couponId, now, checkedAt, bps, windowSeconds);
    if out.Commit? {
      var n := |db.subs|;
      var pkg := db.packages[packageId];
      var used := UseCoupon(db, couponId, n, pkg.price - FirstPrice(db, pkg, couponId), now);
      var db1 := WithRows(db, userId, packageId, qty, couponId, now);
      var db2 := PostUnits(db1, userId, PurchaseSub, BoughtAmounts(db, packageId, qty, couponId), n, now).db;
      UseCouponEvolves(db, couponId, n, pkg.price - FirstPrice(db, pkg, couponId), now);
      SubsAppendEvolve(used, BoughtSubs(db, userId, packageId, qty, couponId, now));
      UnitsEvolve(db1, userId, PurchaseSub, BoughtAmounts(db, packageId, qty, couponId), n, now);
      SpendRewardEvolves(db2, userId, TotalPrice(db, packageId, qty, couponId), bps, windowSeconds, now, SubLink(n));
      EvolvesTrans(db, used, db1);
      EvolvesTrans(db, db1, db2);
      EvolvesTrans(db, db2, out.db);
    }
  }

  lemma GrantEvolves(db: DB, userId: nat, packageId: nat, qty: nat, seconds: int, now: int, checkedAt: int)
    ensures var out := Grant(db, userId, packageId, qty, seconds, now, checkedAt); out.Commit? ==> Evolves(db, out.db)
  {
    hide Evolves, PostUnits;
    var out := Grant(db, userId, packageId, qty, seconds, now, checkedAt);
    if out.Commit? {
      var db1 := db.(subs := db.subs + GrantedSubs(db, userId, packageId, qty, seconds, now));
      SubsAppendEvolve(db, GrantedSubs(db, userId, packageId, qty, seconds, now));
      UnitsEvolve(db1, userId, AdminGrantSub, Zeros(qty), |db.subs|, now);
      EvolvesTrans(db, db1, out.db);
    }
  }

  lemma CancelEvolves(db: DB, id: nat, now: int)
    requires Inv(db)
    ensures var out := Cancel(db, id, now); out.Commit? ==> Evolves(db, out.db)
  {
    hide InvUpTo;
    if id < |db.subs| && db.subs[id].status == Active {
      SubRowKnown(db, |db.subs|, id);
      SubRowEvolves(db, id, db.subs[id].(status := Canceled, canceledAt := Some(now)));
    }
  }

  lemma ExpireEvolves(db: DB, id: nat)
    ensures var out := Expire(db, id); out.Commit? ==> Evolves(db, out.db)
  {
    if Expire(db, id).Commit? {
      SubRowEvolves(db, id, db.subs[id].(status := Expired));
    }
  }

  lemma SetPausedEvolves(db: DB, id: nat, paused: bool)
    ensures var out := SetPaused(db, id, paused); out.Commit? ==> Evolves(db, out.db)
  {
    if SetPaused(db, id, paused).Commit? {
      SubRowEvolves(db, id, db.subs[id].(status := if paused then Paused else Active));
    }
  }

  lemma SubRefundEvolves(db: DB, id: nat, owner: nat, amount: int, now: int)
    ensures var out := RefundSubscription(db, id, owner, amount, now); out.Commit? ==> Evolves(db, out.db)
  {
    hide Evolves;
    var out := RefundSubscription(db, id, owner, amount, now);
    if out.Commit? {
      var s := db.subs[id].(status := SubRefunded, canceledAt := Stamp(db.subs[id].canceledAt, now));
      SubRowEvolves(db, id, s);
      PostEvolves(SetSub(db, id, s), owner, amount, RefundSub, SubRefundLink(id), now);
      EvolvesTrans(db, SetSub(db, id, s), out.db);
    }
  }

  lemma RevokeEvolves(db: DB, id: nat, owner: nat, now: int)
    ensures var out := RevokeGrant(db, id, owner, now); out.Commit? ==> Evolves(db, out.db)
  {
    hide Evolves;
    var out := RevokeGrant(db, id, owner, now);
    if out.Commit? {
      var s := db.subs[id].(status := Revoked, canceledAt := Stamp(db.subs[id].canceledAt, now));
      SubRowEvolves(db, id, s);
      PostEvolves(SetSub(db, id, s), s.userId, 0, AdminRevokeGrant, SubLink(id), now);
      EvolvesTrans(db, SetSub(db, id, s), out.db);
    }
  }

  // --- Coupons and counters -------------------------------------------------------------------------------

  lemma RevokeCouponEvolves(db: DB, id: nat, now: int)
    ensures var out := RevokeCoupon(db, id, now); out.Commit? ==> Evolves(db, out.db)
  {
    if RevokeCoupon(db, id, now).Commit? {
      CouponRowEvolves(db, id, db.coupons[id].(status := CouponRevoked));
    }
  }

  lemma GrantCouponsEvolve(db: DB, userIds: seq<nat>, template: CouponTemplate, qty: nat, expiresAt: Option<int>)
    ensures var out := GrantCoupons(db, userIds, template, qty, expiresAt); out.Commit? ==> Evolves(db, out.db)
  {
    CouponsAppendEvolve(db, CouponBatch(userIds, template, qty, expiresAt));
  }

  lemma ResetEvolves(db: DB, scope: ResetScope, now: int)
    requires Inv(db)
    ensures var out := ResetUsage(db, scope, now); out.Commit? ==> Evolves(db, out.db)
  {
    hide InvUpTo, ResetUsage, Matched;
    ResetKeeps(db, scope, now);
    if ResetUsage(db, scope, now).Commit? {
      var db' := ResetUsage(db, scope, now).db;
      assert db'.entries[..|db.entries|] == db.entries;
    }
  }

  // --- What the ledger index blocks for good -------------------------------------------------------------

  lemma {:induction false} CountGrows(entries: seq<Entry>, entries': seq<Entry>, kind: Kind, link: Link)
    requires entries <= entries'
    ensures Count(entries, kind, link) <= Count(entries', kind, link)
  {
    if |entries'| > |entries| {
      CountGrows(entries, entries'[..|entries'| - 1], kind, link);
    } else {
      assert entries' == entries;
    }
  }

  /** A link once taken stays taken. */
  lemma TakenForGood(db1: DB, db2: DB, k: nat)
    requires Evolves(db1, db2) && db1.linkIndex && k < |db1.entries| && db1.entries[k].link != NoLink
    ensures LinkTaken(db2, db1.entries[k].kind, db1.entries[k].link)
  {
    PresentCounts(db1.entries, k);
    CountGrows(db1.entries, db2.entries, db1.entries[k].kind, db1.entries[k].link);
  }

  /** With the index installed, after a registration that paid a signup bonus, in every later state:
      a referrer bonus for that user, and a referee bonus for anyone that user refers, make the
      whole transaction roll back. */
  lemma SignupBonusBlocksReferral(db: DB, ordinary: bool, signupBonus: nat, template: Option<CouponTemplate>,
                                  expiresAt: Option<int>, at: int, db2: DB, other: nat, referrerBonus: nat,
                                  refereeBonus: nat, later: int)
    requires Inv(db) && db.linkIndex && signupBonus > 0
    requires Evolves(CreateUser(db, ordinary, signupBonus, template, expiresAt, at).After(db), db2)
    ensures referrerBonus > 0 ==>
              ReferralBonuses(db2, |db.users|, other, referrerBonus, refereeBonus, later).Abort?
    ensures refereeBonus > 0 ==>
              ReferralBonuses(db2, other, |db.users|, referrerBonus, refereeBonus, later).Abort?
  {
    hide InvUpTo, Evolves;
    CreateUserKeeps(db, ordinary, signupBonus, template, expiresAt, at);
    SignupEntry(db, ordinary, signupBonus, template, expiresAt, at);
    TakenForGood(CreateUser(db, ordinary, signupBonus, template, expiresAt, at).db, db2, |db.entries|);
    BlockedReferral(db2, |db.users|, other, referrerBonus, refereeBonus, later);
    BlockedReferral(db2, other, |db.users|, referrerBonus, refereeBonus, later);
  }

  lemma SignupEntry(db: DB, ordinary: bool, signupBonus: nat, template: Option<CouponTemplate>, expiresAt: Option<int>,
                    at: int)
    requires CreateUser(db, ordinary, signupBonus, template, expiresAt, at).Commit? && signupBonus > 0
    ensures var db1 := CreateUser(db, ordinary, signupBonus, template, expiresAt, at).db;
            && db1.linkIndex == db.linkIndex && |db1.entries| > |db.entries|
            && db1.entries[|db.entries|].kind == BonusCredit && db1.entries[|db.entries|].link == UserLink(|db.users|)
  {
  }

  lemma BlockedReferral(db: DB, newUser: nat, referrer: nat, referrerBonus: nat, refereeBonus: nat, at: int)
    ensures referrerBonus > 0 && LinkTaken(db, BonusCredit, UserLink(newUser)) ==>
              ReferralBonuses(db, newUser, referrer, referrerBonus, refereeBonus, at).Abort?
    ensures refereeBonus > 0 && LinkTaken(db, BonusCredit, UserLink(referrer)) ==>
              ReferralBonuses(db, newUser, referrer, referrerBonus, refereeBonus, at).Abort?
  {
    if newUser < |db.users| && referrer < |db.users| && newUser != referrer {
      ReferralBonusesCommit(db, newUser, referrer, referrerBonus, refereeBonus, at);
    }
  }

  /** And a referrer who brought in one user with a referee bonus never brings in another one who is
      due such a bonus. */
  lemma SecondReferralBlocked(db: DB, first: nat, second: nat, referrer: nat, referrerBonus: nat, refereeBonus: nat,
                              at: int, db2: DB, otherBonus: nat, laterBonus: nat, later: int)
    requires db.linkIndex && refereeBonus > 0 && laterBonus > 0
    requires ReferralBonuses(db, first, referrer, referrerBonus, refereeBonus, at).Commit?
    requires Evolves(ReferralBonuses(db, first, referrer, referrerBonus, refereeBonus, at).db, db2)
    ensures ReferralBonuses(db2, second, referrer, otherBonus, laterBonus, later).Abort?
  {
    hide Evolves;
    var db1 := ReferralBonuses(db, first, referrer, referrerBonus, refereeBonus, at).db;
    RefereeEntry(db, first, referrer, referrerBonus, refereeBonus, at);
    TakenForGood(db1, db2, |db1.entries| - 1);
    BlockedReferral(db2, second, referrer, otherBonus, laterBonus, later);
  }

  lemma RefereeEntry(db: DB, first: nat, referrer: nat, referrerBonus: nat, refereeBonus: nat, at: int)
    requires ReferralBonuses(db, first, referrer, referrerBonus, refereeBonus, at).Commit? && refereeBonus > 0
    ensures var db1 := ReferralBonuses(db, first, referrer, referrerBonus, refereeBonus, at).db;
            && db1.linkIndex == db.linkIndex && |db1.entries| > 0
            && db1.entries[|db1.entries| - 1].kind == BonusCredit
            && db1.entries[|db1.entries| - 1].link == UserLink(referrer)
  {
  }
}
