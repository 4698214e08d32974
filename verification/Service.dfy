/** The handlers as they run: tables updated step by step inside a transaction that either
    commits or puts every table back. Each is proved to do exactly what its specification
    says, so whatever holds of the specifications holds of the handlers. */
module Service {
  import opened Options
  import opened Money
  import opened Model
  import opened Ledger
  import opened Topups
  import opened Rewards
  import opened Subscriptions
  import opened Charges
  import opened UsageReset
  import opened Ids
  import opened PurchaseProofs
  import opened Summary

  /** The error a handler reports. */
  function Why(out: Outcome): Option<Failure> {
    if out.Abort? then Some(out.why) else None
  }

  class MoneyService {
    var users: seq<User>
    var orders: seq<Order>
    var receipts: set<ReceiptKey>
    var refunds: seq<Refund>
    var packages: seq<Package>
    var plans: seq<Plan>
    var subs: seq<Sub>
    var coupons: seq<Coupon>
    var entries: seq<Entry>
    var recons: seq<Reconciliation>
    var usage: map<UsageKey, Usage>
    const linkIndex: bool

    constructor (linkIndex: bool)
      ensures State() == EMPTY_DB.(linkIndex := linkIndex)
    {
      users, orders, receipts, refunds, packages, plans := [], [], {}, [], [], [];
      subs, coupons, entries, recons, usage := [], [], [], [], map[];
      this.linkIndex := linkIndex;
    }

    function State(): DB
      reads this
    {
      DB(users, orders, receipts, refunds, packages, plans, subs, coupons, entries, recons, usage, linkIndex)
    }

    /** Roll back. */
    method Restore(db: DB)
      requires db.linkIndex == linkIndex
      modifies this
      ensures State() == db
    {
      users, orders, receipts, refunds, packages, plans :=
        db.users, db.orders, db.receipts, db.refunds, db.packages, db.plans;
      subs, coupons, entries, recons, usage := db.subs, db.coupons, db.entries, db.recons, db.usage;
    }

    method WriteBillingEntry(e: Entry) returns (why: Option<Failure>)
      modifies `entries
      ensures why == Why(WriteEntry(old(State()), e))
      ensures State() == WriteEntry(old(State()), e).After(old(State()))
    {
      if ZeroAmountKind(e.kind) && e.amount != 0 {
        return Some(BillingInvalid);
      }
      if linkIndex && e.link != NoLink && Count(entries, e.kind, e.link) > 0 {
        return Some(BillingLinkDuplicate);
      }
      entries := entries + [e];
      return None;
    }

    /** Re-read the quota the transaction has just changed and record the movement. */
    method RecordMovement(userId: nat, amount: int, kind: Kind, link: Link, at: int) returns (why: Option<Failure>)
      requires userId < |users|
      modifies `entries
      ensures var out := WriteEntry(old(State()),
                                    Entry(userId, kind, Settled, amount, users[userId].quota, link, 0, at));
              why == Why(out) && State() == out.After(old(State()))
    {
      var freshQuota := users[userId].quota;
      why := WriteBillingEntry(Entry(userId, kind, Settled, amount, freshQuota, link, 0, at));
    }

    // --- Top-ups ---------------------------------------------------------------------------

    /** The order is stored before the gateway is asked; its answer is written back, or the
        order is marked failed. */
    method CreateTopup(userId: nat, provider: string, fen: int, rateMicros: int, reply: Option<string>,
                       now: int)
      returns (why: Option<Failure>)
      modifies this
      ensures why == Why(CreateOrder(old(State()), userId, provider, fen, rateMicros, now))
      ensures var created := CreateOrder(old(State()), userId, provider, fen, rateMicros, now);
              State() == if created.Abort? then old(State())
                         else match reply
                              case None => FailOrder(created.db, |old(orders)|).After(created.db)
                              case Some(tradeNo) =>
                                StoreGatewayReply(created.db, |old(orders)|, tradeNo).After(created.db)
    {
      if userId >= |users| {
        return Some(UserMissing);
      }
      var converted := UsdMicroFromFen(fen, rateMicros);
      if converted.None? {
        return Some(AmountInvalid);
      }
      var id := |orders|;
      orders := orders + [Order(userId, provider, fen, converted.value, rateMicros, Created, 0, "", "", None,
                                now)];
      if reply.None? {
        orders := orders[id := orders[id].(status := Failed)];
      } else {
        orders := orders[id := orders[id].(tradeNo := reply.value)];
      }
      return None;
    }

    /** The sweep over waiting orders. */
    method ExpireStaleTopupOrders(ttlMinutes: Option<int>, now: int)
      modifies `orders
      ensures State() == LapseOrders(old(State()), ttlMinutes, now)
    {
      var cutoff := now - OrderTtlMinutes(ttlMinutes) * 60_000_000;
      for i := 0 to |orders|
        invariant |orders| == |old(orders)|
        invariant forall k :: 0 <= k < i ==> orders[k] == Lapsed(old(orders)[k], cutoff)
        invariant forall k :: i <= k < |orders| ==> orders[k] == old(orders)[k]
      {
        if orders[i].status == Created && orders[i].createdAt < cutoff {
          orders := orders[i := orders[i].(status := OrderCanceled)];
        }
      }
    }

    method RecordReceipt(provider: string, nonce: string) returns (duplicate: bool)
      modifies `receipts
      ensures duplicate == IsRepeat(old(State()), provider, nonce)
      ensures State() == if duplicate then old(State()) else StoreReceipt(old(State()), provider, nonce)
    {
      duplicate := ReceiptKey(provider, nonce) in receipts;
      if !duplicate {
        receipts := receipts + {ReceiptKey(provider, nonce)};
      }
    }

    /** Raise quota and paid_quota together and record the credit. */
    method CreditUser(userId: nat, amount: int, id: nat, now: int) returns (why: Option<Failure>)
      modifies `users, `entries
      ensures var out := CreditOrder(old(State()), userId, amount, id, now);
              why == Why(out) && (out.Commit? ==> State() == out.db)
    {
      hide WriteEntry;
      if userId >= |users| {
        return Some(UserMissing);
      }
      var u := users[userId];
      ghost var raised := State().(users := users[userId := u.(paidQuota := u.paidQuota + amount)]);
      users := users[userId := u.(quota := u.quota + amount, paidQuota := u.paidQuota + amount)];
      assert State() == AddQuota(raised, userId, amount);
      why := RecordMovement(userId, amount, Topup, OrderLink(id), now);
    }

    method FinalizePaidTopup(event: Event, order: Order, now: int) returns (why: Option<Failure>)
      modifies this
      ensures why == Why(FinalizePaid(old(State()), event, order, now))
      ensures State() == FinalizePaid(old(State()), event, order, now).After(old(State()))
    {
      hide CreditOrder;
      var saved := State();
      var id := event.outTradeNo;
      why := None;
      label tx: {
        if id >= |orders| || orders[id].status != Created {
          why := Some(TopupDuplicate);
          break tx;
        }
        var tradeNo := Clip(event.externalTradeNo);
        orders := orders[id := orders[id].(status := Paid, tradeNo := tradeNo, paidAt := Some(now))];
        why := CreditUser(order.userId, order.amountMicro, id, now);
      }
      if why.Some? {
        Restore(saved);
      }
    }

    /** The three webhook phases in a row: receipt, order read, finalise. */
    method ProcessPaymentWebhook(provider: string, event: Event, now: int)
      modifies this
      ensures State() ==
        if IsRepeat(old(State()), provider, event.nonce) then old(State())
        else
          var received := StoreReceipt(old(State()), provider, event.nonce);
          if event.kind != PaidEvent || event.outTradeNo >= |received.orders|
             || !Admits(provider, event, received.orders[event.outTradeNo]) then received
          else FinalizePaid(received, event, received.orders[event.outTradeNo], now).After(received)
    {
      var duplicate := RecordReceipt(provider, event.nonce);
      if duplicate {
        return;
      }
      if event.kind != PaidEvent {
        return;
      }
      if event.outTradeNo >= |orders| {
        return;
      }
      var order := orders[event.outTradeNo];
      if order.provider != provider {
        return;
      }
      if !AmountMatches(event, order) {
        return;
      }
      var _ := FinalizePaidTopup(event, order, now);
    }

    method AdminMarkTopupPaid(id: nat, order: Order, externalRef: string, now: int) returns (why: Option<Failure>)
      modifies this
      ensures why == Why(MarkPaid(old(State()), id, order.userId, externalRef, now))
      ensures State() == MarkPaid(old(State()), id, order.userId, externalRef, now).After(old(State()))
    {
      hide CreditOrder;
      var saved := State();
      why := None;
      label tx: {
        if order.userId >= |users| {
          why := Some(UserMissing);
          break tx;
        }
        if id >= |orders| {
          why := Some(RowMissing);
          break tx;
        }
        var freshOrder := orders[id];
        if freshOrder.status != Created {
          why := Some(AdminMarkRaced);
          break tx;
        }
        var duplicate := RecordReceipt(MANUAL_PROVIDER, externalRef);
        if duplicate {
          why := Some(ManualRefDuplicate);
          break tx;
        }
        orders := orders[id := freshOrder.(status := Paid, tradeNo := externalRef, paidAt := Some(now))];
        why := CreditUser(freshOrder.userId, freshOrder.amountMicro, id, now);
      }
      if why.Some? {
        Restore(saved);
      }
    }

    /** This refund's fen and its rounded share, from the order read inside the transaction. */
    method RefundAmounts(freshOrder: Order, requestedFen: nat) returns (refundFen: int, share: Option<int>)
      ensures refundFen == RefundFen(freshOrder, requestedFen)
      ensures share == RefundShare(freshOrder, refundFen)
    {
      var remainingFen := freshOrder.moneyFen - freshOrder.refundedFen;
      refundFen := if requestedFen > 0 then requestedFen else remainingFen;
      if refundFen <= 0 || refundFen > remainingFen {
        return refundFen, None;
      }
      var before := Prorated(freshOrder.amountMicro, freshOrder.moneyFen, freshOrder.refundedFen);
      var after := Prorated(freshOrder.amountMicro, freshOrder.moneyFen, freshOrder.refundedFen + refundFen);
      if before.None? || after.None? || after.value < before.value {
        return refundFen, None;
      }
      return refundFen, Some(after.value - before.value);
    }

    /** Refunded money stops counting as paid, down to zero; reclaimed money leaves the quota. */
    method ReclassifyPaid(owner: nat, micro: int, reclaim: bool)
      requires owner < |users|
      modifies `users
      ensures var u := old(users[owner]);
              users == old(users)[owner := u.(quota := u.quota + (if reclaim then -micro else 0),
                                              paidQuota := Saturating(u.paidQuota, micro))]
    {
      var u := users[owner];
      u := u.(paidQuota := if u.paidQuota >= micro then u.paidQuota - micro else 0);
      if reclaim {
        u := u.(quota := u.quota - micro);
      }
      users := users[owner := u];
    }

    /** The user row and the ledger of a refund. */
    method MoveRefund(owner: nat, micro: int, reclaim: bool, id: nat, now: int) returns (why: Option<Failure>)
      requires owner < |users|
      modifies `users, `entries
      ensures var u := old(users)[owner];
              var paid := u.(paidQuota := Saturating(u.paidQuota, micro));
              var lowered := old(State()).(users := old(users)[owner := paid]);
              var out := Post(lowered, owner, if reclaim then -micro else 0, RefundTopup, OrderLink(id), now);
              why == Why(out) && (out.Commit? ==> State() == out.db)
    {
      hide WriteEntry, Saturating;
      ghost var u := users[owner];
      ghost var lowered := State().(users := users[owner := u.(paidQuota := Saturating(u.paidQuota, micro))]);
      ReclassifyPaid(owner, micro, reclaim);
      assert State() == AddQuota(lowered, owner, if reclaim then -micro else 0);
      why := RecordMovement(owner, if reclaim then -micro else 0, RefundTopup, OrderLink(id), now);
    }

    /** The compare-and-set on the order, then the user, the ledger and the refund row. */
    method ApplyRefund(id: nat, owner: nat, refundFen: int, micro: int, reclaim: bool, externalRef: string, now: int)
      returns (why: Option<Failure>)
      requires id < |orders| && owner < |users|
      modifies this
      ensures var out := RefundWrites(old(State()), id, owner, refundFen, micro, reclaim, externalRef, now);
              why == Why(out) && (out.Commit? ==> State() == out.db)
    {
      hide Saturating, Post;
      var order := orders[id];
      if order.status != Paid {
        return Some(AdminMarkRaced);
      }
      var newRefundedFen := order.refundedFen + refundFen;
      var newStatus := if newRefundedFen == order.moneyFen then Refunded else Paid;
      orders := orders[id := order.(refundedFen := newRefundedFen, status := newStatus, refundNo := externalRef)];
      why := MoveRefund(owner, micro, reclaim, id, now);
      if why.None? {
        refunds := refunds + [Refund(id, externalRef, refundFen, micro, reclaim)];
      }
    }

    method AdminRefundTopup(id: nat, order: Order, requestedFen: nat, reclaim: bool, externalRef: string, now: int)
      returns (why: Option<Failure>)
      modifies this
      ensures why == Why(RefundOrder(old(State()), id, order.userId, requestedFen, reclaim, externalRef, now))
      ensures State() == RefundOrder(old(State()), id, order.userId, requestedFen, reclaim, externalRef, now)
                           .After(old(State()))
    {
      hide RefundShare, RefundFen, RefUsed, HasUnrefundedSub, RefundWrites;
      var saved := State();
      why := None;
      label tx: {
        if order.userId >= |users| {
          why := Some(UserMissing);
          break tx;
        }
        if RefUsed(refunds, externalRef) {
          why := Some(RefundRefDuplicate);
          break tx;
        }
        if reclaim && HasUnrefundedSub(subs, order.userId) {
          why := Some(ReclaimBlocked);
          break tx;
        }
        if id >= |orders| {
          why := Some(RowMissing);
          break tx;
        }
        var refundFen, share := RefundAmounts(orders[id], requestedFen);
        if share.None? {
          why := Some(RefundAmountInvalid);
          break tx;
        }
        why := ApplyRefund(id, order.userId, refundFen, share.value, reclaim, externalRef, now);
      }
      if why.Some? {
        Restore(saved);
      }
    }

    // --- Rewards and registration -------------------------------------------------------------

    method ApplySpendReward(userId: nat, spend: int, bps: int, windowSeconds: int, at: int, link: Link)
      returns (why: Option<Failure>)
      modifies this
      ensures var out := SpendReward(old(State()), userId, spend, bps, windowSeconds, at, link);
              why == Why(out) && (out.Commit? ==> State() == out.db)
    {
      hide WriteEntry, RemainingPaid, RewardAmount;
      if spend <= 0 {
        return None;
      }
      if userId >= |users| {
        return Some(UserMissing);
      }
      var u := users[userId];
      var reward := RewardAmount(u, userId, spend, bps, windowSeconds, at);
      users := users[userId := u.(paidQuota := RemainingPaid(u))];
      if reward <= 0 {
        return None;
      }
      assert u.referredBy.Some? by {
        PayeeNamed(u, userId, spend, bps, windowSeconds, at);
      }
      var referrer := u.referredBy.value;
      if referrer >= |users| || !users[referrer].ordinary || !users[referrer].enabled {
        return None;
      }
      users := users[referrer := users[referrer].(quota := users[referrer].quota + reward)];
      why := RecordMovement(referrer, reward, BonusCredit, link, at);
    }

    method CreateUserWithSignupBonus(ordinary: bool, signupBonus: nat, template: Option<CouponTemplate>,
                                     expiresAt: Option<int>, at: int)
      returns (why: Option<Failure>)
      modifies this
      ensures why == Why(CreateUser(old(State()), ordinary, signupBonus, template, expiresAt, at))
      ensures State() == CreateUser(old(State()), ordinary, signupBonus, template, expiresAt, at).After(old(State()))
    {
      hide WriteEntry;
      var saved := State();
      why := None;
      label tx: {
        var id := |users|;
        users := users + [User(signupBonus, 0, None, None, ordinary, true)];
        if signupBonus > 0 {
          ghost var posted := saved.(users := saved.users + [User(0, 0, None, None, ordinary, true)]);
          assert State() == AddQuota(posted, id, signupBonus);
          why := RecordMovement(id, signupBonus, BonusCredit, UserLink(id), at);
          if why.Some? {
            break tx;
          }
        }
        if template.Some? && template.value.enabled {
          coupons := coupons + [FromTemplate(id, template.value, expiresAt)];
        }
      }
      if why.Some? {
        Restore(saved);
      }
    }

    method PayBonus(userId: nat, amount: nat, link: Link, at: int) returns (why: Option<Failure>)
      modifies this
      ensures var out := Bonus(old(State()), userId, amount, link, at);
              why == Why(out) && (out.Commit? ==> State() == out.db)
    {
      hide WriteEntry;
      if amount == 0 {
        return None;
      }
      if userId >= |users| {
        return Some(UserMissing);
      }
      users := users[userId := users[userId].(quota := users[userId].quota + amount)];
      why := RecordMovement(userId, amount, BonusCredit, link, at);
    }

    method ApplyReferralBonuses(newUser: nat, referrer: nat, referrerBonus: nat, refereeBonus: nat, at: int)
      returns (why: Option<Failure>)
      modifies this
      ensures why == Why(Rewards.ReferralBonuses(old(State()), newUser, referrer, referrerBonus, refereeBonus, at))
      ensures State() == Rewards.ReferralBonuses(old(State()), newUser, referrer, referrerBonus, refereeBonus, at)
                           .After(old(State()))
    {
      hide Bonus;
      if newUser >= |users| || referrer >= |users| || newUser == referrer {
        return Some(NotEligible);
      }
      var saved := State();
      if users[newUser].referredBy == None {
        users := users[newUser := users[newUser].(referredBy := Some(referrer), referredAt := Some(at))];
      }
      assert users == old(users)[newUser := Relate(old(users)[newUser], referrer, at)];
      why := PayBonus(referrer, referrerBonus, UserLink(newUser), at);
      if why == None {
        why := PayBonus(newUser, refereeBonus, UserLink(referrer), at);
      }
      if why.Some? {
        Restore(saved);
      }
    }

    // --- Purchase --------------------------------------------------------------------------------

    /** The conditional update that marks the coupon used, or why it is refused. */
    method LockAndApplyCoupon(userId: nat, couponId: nat, packageId: nat, pkg: Package, now: int)
      returns (refusal: Option<Failure>)
      modifies `coupons
      ensures refusal == CouponCheck(old(State()), userId, packageId, pkg, Some(couponId), now)
      ensures refusal.Some? ==> coupons == old(coupons)
      ensures refusal == None ==>
                couponId < |old(coupons)|
                && coupons == old(coupons)[couponId := old(coupons)[couponId].(status := Used, usedAt := Some(now))]
    {
      if couponId >= |coupons| || coupons[couponId].userId != userId {
        return Some(CouponInvalid);
      }
      var coupon := coupons[couponId];
      if coupon.status != Available || (coupon.expiresAt.Some? && now > coupon.expiresAt.value) {
        return Some(CouponInvalid);
      }
      if coupon.packages.None? {
        return Some(CouponInvalid);
      }
      if !Covers(coupon, packageId) {
        return Some(CouponNotApplicable);
      }
      if coupon.fixedPrice {
        if coupon.value <= 0 {
          return Some(CouponInvalid);
        }
        var lowerBound := LowerBound(pkg);
        if lowerBound > 0 && coupon.value < lowerBound {
          return Some(CouponBelowCostFloor);
        }
      }
      if !CouponLive(coupon, now) {
        return Some(CouponInvalid);
      }
      coupons := coupons[couponId := coupon.(status := Used, usedAt := Some(now))];
      return None;
    }

    /** The checks on the rows read inside the transaction, in the order they are made. */
    method ValidatePurchase(userId: nat, packageId: nat, qty: nat, checkedAt: int) returns (refusal: Option<Failure>)
      ensures refusal == PurchaseRefusal(State(), userId, packageId, qty, checkedAt)
    {
      if qty < 1 || qty > 100 {
        return Some(QuantityInvalid);
      }
      if userId >= |users| {
        return Some(UserMissing);
      }
      if packageId >= |packages| {
        return Some(PackageGone);
      }
      var freshPkg := packages[packageId];
      if !freshPkg.enabled {
        return Some(PackageDisabled);
      }
      if !freshPkg.published {
        return Some(PackageNotPublic);
      }
      if freshPkg.price < 0 {
        return Some(PackageInvalidNumeric);
      }
      if freshPkg.period <= 0 || freshPkg.period > MAX_BILLING_PERIOD_SECONDS {
        return Some(PackagePeriodInvalid);
      }
      if !SnapshotBuilds(freshPkg, plans) {
        return Some(SnapshotInvalid);
      }
      var effectiveMax := freshPkg.maxActive;
      if !freshPkg.stackable {
        effectiveMax := 1;
      }
      if effectiveMax > 0 && ActiveCount(subs, userId, packageId, checkedAt) + qty > effectiveMax {
        return Some(StackLimit);
      }
      return None;
    }

    /** Every unit at the list price, then the first one at the coupon's price. */
    method FillPrices(pkg: Package, qty: nat, coupon: Option<Coupon>) returns (prices: seq<int>)
      requires qty >= 1
      ensures var first := if coupon.Some? then EffectivePrice(coupon.value, pkg.price) else pkg.price;
              prices == Prices(first, pkg.price, qty)
    {
      var perSub := new int[qty];
      for i := 0 to qty
        invariant forall k :: 0 <= k < i ==> perSub[k] == pkg.price
      {
        perSub[i] := pkg.price;
      }
      if coupon.Some? {
        perSub[0] := EffectivePrice(coupon.value, pkg.price);
      }
      prices := perSub[..];
    }

    method CreateSubs(userId: nat, packageId: nat, pkg: Package, prices: seq<int>, granted: bool, baseIndex: int,
                      coupon: Option<nat>, now: int, endAt: int)
      modifies `subs
      ensures subs == old(subs) + NewSubs(userId, packageId, pkg, prices, granted, baseIndex, coupon, now, endAt)
    {
      ghost var all := NewSubs(userId, packageId, pkg, prices, granted, baseIndex, coupon, now, endAt);
      for i := 0 to |prices|
        invariant subs == old(subs) + all[..i]
      {
        subs := subs + [Sub(userId, packageId, now, endAt, None, baseIndex + i, Active, granted, prices[i], pkg.price,
                            pkg.planIds, if i == 0 then coupon else None)];
      }
    }

    /** One entry per unit. The whole total has already left the quota; the balances are rolled
        forward from start, and the result is as if the units had been debited one by one. */
    method WriteUnitEntries(userId: nat, kind: Kind, prices: seq<int>, firstSub: nat, at: int, start: int)
      returns (why: Option<Failure>)
      requires userId < |users| && users[userId].quota == start - Sum(prices)
      modifies `entries
      ensures var before := old(State()).(users := users[userId := users[userId].(quota := start)]);
              var out := PostUnits(before, userId, kind, Negated(prices), firstSub, at);
              why == Why(out) && (out.Commit? ==> State() == out.db)
    {
      hide WriteEntry, PostUnits, Post, Sum;
      ghost var before := State().(users := Rolled(users, userId, start));
      ghost var amounts := Negated(prices);
      ghost var rolled := before;
      var rolling := start;
      assert prices[..0] == [] && amounts[0..] == amounts;
      NothingSummed();
      for i := 0 to |prices|
        invariant rolling == start - Sum(prices[..i])
        invariant rolled == before.(users := Rolled(users, userId, rolling), entries := entries)
        invariant PostUnits(before, userId, kind, amounts, firstSub, at)
                  == PostUnits(rolled, userId, kind, amounts[i..], firstSub + i, at + i)
      {
        SumSnoc(prices, i);
        rolling := rolling - prices[i];
        var e := Entry(userId, kind, Settled, -prices[i], rolling, SubLink(firstSub + i), 0, at + i);
        assert Rolled(rolled.users, userId, rolling) == Rolled(users, userId, rolling);
        UnitRolled(rolled, State(), userId, kind, amounts, i, firstSub, at, e);
        why := WriteBillingEntry(e);
        if why.Some? {
          return;
        }
        rolled := rolled.(users := Rolled(users, userId, rolling), entries := entries);
      }
      assert prices[..|prices|] == prices && amounts[|prices|..] == [];
      NothingPosted(rolled, userId, kind, firstSub + |prices|, at + |prices|);
      assert Rolled(users, userId, rolling) == users;
      why := None;
    }

    method PurchaseAsInstant(userId: nat, packageId: nat, qty: nat, couponId: Option<nat>, now: int, checkedAt: int,
                             bps: int, windowSeconds: int)
      returns (why: Option<Failure>)
      requires forall i :: 0 <= i < |packages| ==> packages[i].price <= MAX_INT64
      modifies this
      ensures why == Why(Purchase(old(State()), userId, packageId, qty, couponId, now, checkedAt, bps, windowSeconds))
      ensures State() == Purchase(old(State()), userId, packageId, qty, couponId, now, checkedAt, bps, windowSeconds)
                           .After(old(State()))
    {
      hide PurchaseRefusal, CouponRefusal, PostUnits, SpendReward, NewSubs, NextIndex, EffectivePrice;
      var saved := State();
      why := ValidatePurchase(userId, packageId, qty, checkedAt);
      if why == None {
        RefusalRange(saved, userId, packageId, qty, checkedAt);
        why := DeliverPurchase(userId, packageId, qty, couponId, now, bps, windowSeconds);
      }
      if why.Some? {
        Restore(saved);
      }
    }

    /** The debit, the new subscriptions and the coupon's link to the first of them. */
    method WriteRows(userId: nat, packageId: nat, pkg: Package, prices: seq<int>, total: int, couponId: Option<nat>,
                     now: int, ghost before: DB)
      requires userId < |users| && packageId < |packages| && pkg == packages[packageId] && |prices| >= 1
      requires couponId.Some? ==> couponId.value < |coupons| == |before.coupons|
      requires State() == before.(coupons := coupons)
      requires coupons == Touched(before.coupons, couponId, now)
      requires prices == Prices(FirstPrice(before, pkg, couponId), pkg.price, |prices|)
      requires 0 <= total
      modifies this
      ensures State() == AddQuota(WithRows(before, userId, packageId, |prices|, couponId, now), userId, -total)
    {
      hide NewSubs, NextIndex, FirstPrice, Prices, WithRows, BoughtSubs;
      if total > 0 {
        users := users[userId := users[userId].(quota := users[userId].quota - total)];
      }
      assert users == before.users[userId := before.users[userId].(quota := before.users[userId].quota - total)];
      var baseIndex := NextIndex(subs, userId, packageId);
      var firstSub := |subs|;
      CreateSubs(userId, packageId, pkg, prices, false, baseIndex, couponId, now, now + pkg.period * 1_000_000);
      if couponId.Some? {
        var used := coupons[couponId.value];
        coupons := coupons[couponId.value := used.(usedOn := Some(firstSub), saving := pkg.price - prices[0])];
      }
      FirstOfPrices(FirstPrice(before, pkg, couponId), pkg.price, |prices|);
      BoughtWritten(before, userId, packageId, prices, couponId, now);
      RowsWritten(before, userId, packageId, |prices|, couponId, now, total);
    }

    /** The rows, the rolling entries and the reward. */
    method WritePurchase(userId: nat, packageId: nat, pkg: Package, prices: seq<int>, total: int,
                         couponId: Option<nat>, now: int, bps: int, windowSeconds: int, ghost before: DB)
      returns (why: Option<Failure>)
      requires userId < |users| && packageId < |packages| && pkg == packages[packageId] && |prices| >= 1
      requires couponId.Some? ==> couponId.value < |coupons| == |before.coupons|
      requires State() == before.(coupons := coupons)
      requires coupons == Touched(before.coupons, couponId, now)
      requires prices == Prices(FirstPrice(before, pkg, couponId), pkg.price, |prices|)
      requires total == Sum(prices) == TotalPrice(before, packageId, |prices|, couponId)
      requires 0 <= total
      modifies this
      ensures var out := Deliver(before, userId, packageId, |prices|, couponId, now, bps, windowSeconds);
              why == Why(out) && (out.Commit? ==> State() == out.db)
    {
      hide PostUnits, SpendReward, FirstPrice, Prices, Sum, Touched, WithRows, TotalPrice;
      ghost var rows := WithRows(before, userId, packageId, |prices|, couponId, now);
      RowsUsers(before, userId, packageId, |prices|, couponId, now);
      var firstSub := |subs|;
      WriteRows(userId, packageId, pkg, prices, total, couponId, now, before);
      var start := users[userId].quota + total;
      Undebited(rows, userId, total);
      why := WriteUnitEntries(userId, PurchaseSub, prices, firstSub, now, start);
      if why.Some? {
        return;
      }
      why := ApplySpendReward(userId, total, bps, windowSeconds, now, SubLink(firstSub));
    }

    /** Take the coupon, if one is given, and price the units. */
    method PriceUnits(userId: nat, packageId: nat, qty: nat, couponId: Option<nat>, now: int)
      returns (why: Option<Failure>, prices: seq<int>)
      requires packageId < |packages| && qty >= 1 && 0 <= packages[packageId].price
      modifies `coupons
      ensures why == CouponCheck(old(State()), userId, packageId, packages[packageId], couponId, now)
      ensures why == None ==>
                prices == Prices(FirstPrice(old(State()), packages[packageId], couponId), packages[packageId].price,
                                 qty)
      ensures why == None && couponId.Some? ==> couponId.value < |coupons| == |old(coupons)|
      ensures why == None ==> coupons == Touched(old(coupons), couponId, now)
    {
      hide CouponRefusal, EffectivePrice, Prices;
      var pkg := packages[packageId];
      why, prices := None, [];
      var usedCoupon := None;
      if couponId.Some? {
        why := LockAndApplyCoupon(userId, couponId.value, packageId, pkg, now);
        if why.Some? {
          return;
        }
        usedCoupon := Some(coupons[couponId.value]);
        SamePrice(old(coupons)[couponId.value], coupons[couponId.value], pkg.price);
      }
      prices := FillPrices(pkg, qty, usedCoupon);
    }

    /** The writes of a purchase whose package checks passed. */
    method DeliverPurchase(userId: nat, packageId: nat, qty: nat, couponId: Option<nat>, now: int, bps: int,
                           windowSeconds: int)
      returns (why: Option<Failure>)
      requires userId < |users| && packageId < |packages| && qty >= 1 && 0 <= packages[packageId].price <= MAX_INT64
      modifies this
      ensures var out := Checkout(old(State()), userId, packageId, qty, couponId, now, bps, windowSeconds);
              why == Why(out) && (out.Commit? ==> State() == out.db)
    {
      hide CouponCheck, Deliver, FirstPrice, TotalPrice, Sum, Prices;
      ghost var before := State();
      var pkg := packages[packageId];
      var prices;
      why, prices := PriceUnits(userId, packageId, qty, couponId, now);
      if why.Some? {
        return;
      }
      ghost var first := FirstPrice(before, pkg, couponId);
      PricesRange(first, pkg.price, qty);
      FirstPriceRange(before, pkg, couponId);
      QuoteTotal(before, packageId, qty, couponId);
      assert |prices| == qty;
      SumNonnegative(prices);
      var total := CheckedSum(prices);
      if total.None? {
        return Some(PriceOverflow);
      }
      if total.value > 0 {
        if users[userId].quota < total.value {
          return Some(InsufficientBalance);
        }
      }
      why := WritePurchase(userId, packageId, pkg, prices, total.value, couponId, now, bps, windowSeconds, before);
    }

    // --- Grants ------------------------------------------------------------------------------------

    method ValidateGrant(userId: nat, packageId: nat, qty: nat, checkedAt: int) returns (refusal: Option<Failure>)
      ensures refusal == GrantRefusal(State(), userId, packageId, qty, checkedAt)
    {
      if qty < 1 || qty > 100 {
        return Some(QuantityInvalid);
      }
      if userId >= |users| {
        return Some(UserMissing);
      }
      if !users[userId].ordinary || !users[userId].enabled {
        return Some(TargetUserChanged);
      }
      if packageId >= |packages| {
        return Some(PackageGone);
      }
      var freshPkg := packages[packageId];
      if !freshPkg.enabled || freshPkg.price < 0 {
        return Some(PackageChanged);
      }
      if freshPkg.period <= 0 || freshPkg.period > MAX_BILLING_PERIOD_SECONDS {
        return Some(PackagePeriodInvalid);
      }
      if !SnapshotBuilds(freshPkg, plans) {
        return Some(SnapshotInvalid);
      }
      var effectiveMax := freshPkg.maxActive;
      if !freshPkg.stackable {
        effectiveMax := 1;
      }
      if effectiveMax > 0 && ActiveCount(subs, userId, packageId, checkedAt) + qty > effectiveMax {
        return Some(StackLimit);
      }
      return None;
    }

    /** effectiveSeconds is fixed from the copy read before the transaction. */
    method ExecuteAdminGrant(userId: nat, packageId: nat, pkg: Package, qty: nat, validSeconds: Option<int>, now: int,
                             checkedAt: int)
      returns (why: Option<Failure>)
      modifies this
      ensures why == Why(Grant(old(State()), userId, packageId, qty, GrantSeconds(pkg, validSeconds), now, checkedAt))
      ensures State() == Grant(old(State()), userId, packageId, qty, GrantSeconds(pkg, validSeconds), now, checkedAt)
                           .After(old(State()))
    {
      hide GrantRefusal, PostUnits, NewSubs, NextIndex, Sum;
      var effectiveSeconds := pkg.period;
      if validSeconds.Some? {
        effectiveSeconds := validSeconds.value;
      }
      var saved := State();
      why := ValidateGrant(userId, packageId, qty, checkedAt);
      if why == None {
        GrantRange(saved, userId, packageId, qty, checkedAt);
        var baseIndex := NextIndex(subs, userId, packageId);
        var firstSub := |subs|;
        CreateSubs(userId, packageId, packages[packageId], Zeros(qty), true, baseIndex, None, now,
                   now + effectiveSeconds * 1_000_000);
        SumConstant(Zeros(qty), 0);
        assert Negated(Zeros(qty)) == Zeros(qty);
        assert users[userId := users[userId].(quota := users[userId].quota)] == users;
        why := WriteUnitEntries(userId, AdminGrantSub, Zeros(qty), firstSub, now, users[userId].quota);
      }
      if why.Some? {
        Restore(saved);
      }
    }

    // --- Ending subscriptions ---------------------------------------------------------------------

    method CancelSubscription(id: nat, now: int) returns (why: Option<Failure>)
      modifies this
      ensures why == Why(Cancel(old(State()), id, now))
      ensures State() == Cancel(old(State()), id, now).After(old(State()))
    {
      if id >= |subs| || subs[id].status != Active {
        return Some(SubStateMiss);
      }
      subs := subs[id := subs[id].(status := Canceled, canceledAt := Some(now))];
      return None;
    }

    method AdminRefundSubscription(id: nat, sub: Sub, amount: int, now: int) returns (why: Option<Failure>)
      modifies this
      ensures why == Why(RefundSubscription(old(State()), id, sub.userId, amount, now))
      ensures State() == RefundSubscription(old(State()), id, sub.userId, amount, now).After(old(State()))
    {
      hide WriteEntry, Count;
      var saved := State();
      why := None;
      label tx: {
        if sub.userId >= |users| {
          why := Some(UserMissing);
          break tx;
        }
        if Count(entries, RefundSub, SubRefundLink(id)) + Count(entries, RefundSub, SubLink(id)) > 0 {
          why := Some(SubRefundDuplicate);
          break tx;
        }
        if id >= |subs| || subs[id].granted || !RefundableStatus(subs[id].status) {
          why := Some(SubStateMiss);
          break tx;
        }
        var canceledAt := if subs[id].canceledAt.None? then Some(now) else subs[id].canceledAt;
        subs := subs[id := subs[id].(status := SubRefunded, canceledAt := canceledAt)];
        users := users[sub.userId := users[sub.userId].(quota := users[sub.userId].quota + amount)];
        why := RecordMovement(sub.userId, amount, RefundSub, SubRefundLink(id), now);
      }
      if why.Some? {
        Restore(saved);
      }
    }

    method AdminRevokeGrantedSubscription(id: nat, sub: Sub, now: int) returns (why: Option<Failure>)
      modifies this
      ensures why == Why(RevokeGrant(old(State()), id, sub.userId, now))
      ensures State() == RevokeGrant(old(State()), id, sub.userId, now).After(old(State()))
    {
      hide WriteEntry;
      var saved := State();
      why := None;
      label tx: {
        if sub.userId >= |users| {
          why := Some(UserMissing);
          break tx;
        }
        if id >= |subs| {
          why := Some(RowMissing);
          break tx;
        }
        var lockedSub := subs[id];
        if !lockedSub.granted {
          why := Some(RevokeNotGranted);
          break tx;
        }
        if !RevocableStatus(lockedSub.status) {
          why := Some(RevokeBadStatus);
          break tx;
        }
        var canceledAt := if lockedSub.canceledAt.None? then Some(now) else lockedSub.canceledAt;
        subs := subs[id := lockedSub.(status := Revoked, canceledAt := canceledAt)];
        if lockedSub.userId >= |users| {
          why := Some(UserMissing);
          break tx;
        }
        assert State() == AddQuota(State(), lockedSub.userId, 0);
        why := RecordMovement(lockedSub.userId, 0, AdminRevokeGrant, SubLink(id), now);
      }
      if why.Some? {
        Restore(saved);
      }
    }

    // --- Reconciliation ---------------------------------------------------------------------------------

    /** The guarded debit, its adjustment entry and the reward. */
    method ChargeEntry(id: nat, now: int, bps: int, windowSeconds: int) returns (why: Option<Failure>)
      requires id < |entries|
      modifies this
      ensures var out := ChargePending(old(State()), id, now, bps, windowSeconds);
              why == Why(out) && (out.Commit? ==> State() == out.db)
    {
      hide WriteEntry, SpendReward;
      var freshEntry := entries[id];
      if freshEntry.estimatedCost <= 0 {
        return Some(ReconcileNoCost);
      }
      if freshEntry.estimatedCost > MAX_SINGLE_RECONCILE_MICRO {
        return Some(ReconcileOverCap);
      }
      if freshEntry.userId >= |users| {
        return Some(UserMissing);
      }
      if users[freshEntry.userId].quota < freshEntry.estimatedCost {
        return Some(InsufficientBalance);
      }
      var owner := users[freshEntry.userId];
      users := users[freshEntry.userId := owner.(quota := owner.quota - freshEntry.estimatedCost)];
      why := RecordMovement(freshEntry.userId, -freshEntry.estimatedCost, AdminAdjust, EntryLink(id), now);
      if why == None {
        why := ApplySpendReward(freshEntry.userId, freshEntry.estimatedCost, bps, windowSeconds, freshEntry.occurredAt,
                                EntryLink(id));
      }
    }

    method AdminReconcileBillingEntry(id: nat, entry: Entry, result: ReconcileResult, now: int, bps: int,
                                      windowSeconds: int)
      returns (why: Option<Failure>)
      modifies this
      ensures why == Why(Reconcile(old(State()), id, entry.userId, result, now, bps, windowSeconds))
      ensures State() == Reconcile(old(State()), id, entry.userId, result, now, bps, windowSeconds).After(old(State()))
    {
      hide ChargePending, Reconciled;
      var saved := State();
      why := None;
      label tx: {
        if entry.userId >= |users| {
          why := Some(UserMissing);
          break tx;
        }
        if id >= |entries| {
          why := Some(RowMissing);
          break tx;
        }
        if entries[id].state != PendingReconcile && entries[id].state != UpstreamUnmetered {
          why := Some(ReconcileNotPending);
          break tx;
        }
        var adjustment := None;
        if result == Charged {
          adjustment := Some(|entries|);
          why := ChargeEntry(id, now, bps, windowSeconds);
          if why.Some? {
            break tx;
          }
        }
        if Reconciled(recons, id) {
          why := Some(ReconcileAlreadyDone);
          break tx;
        }
        recons := recons + [Reconciliation(id, result, adjustment)];
      }
      if why.Some? {
        Restore(saved);
      }
    }

    /** Charge the balance for one finished API turn, or leave the cost to be reconciled. */
    method CommitBalanceTurn(userId: nat, cost: nat, logId: Option<nat>, at: int, bps: int, windowSeconds: int)
      returns (why: Option<Failure>)
      modifies this
      ensures why == Why(ConsumeBalance(old(State()), userId, cost, logId, at, bps, windowSeconds))
      ensures State() == ConsumeBalance(old(State()), userId, cost, logId, at, bps, windowSeconds).After(old(State()))
    {
      hide WriteEntry, SpendReward;
      var saved := State();
      if userId >= |users| {
        return Some(UserMissing);
      }
      if users[userId].quota < cost {
        why := WriteBillingEntry(Entry(userId, ApiUsagePending, PendingReconcile, 0, users[userId].quota,
                                       LogLink(logId), cost, at));
      } else {
        users := users[userId := users[userId].(quota := users[userId].quota - cost)];
        why := RecordMovement(userId, -(cost as int), ApiConsumeBalance, LogLink(logId), at);
        if why == None {
          why := ApplySpendReward(userId, cost, bps, windowSeconds, at, LogLink(logId));
        }
      }
      if why.Some? {
        Restore(saved);
      }
    }

    // --- Coupons ----------------------------------------------------------------------------------------

    method AdminRevokeCoupon(id: nat, now: int) returns (why: Option<Failure>)
      modifies this
      ensures why == Why(Subscriptions.RevokeCoupon(old(State()), id, now))
      ensures State() == Subscriptions.RevokeCoupon(old(State()), id, now).After(old(State()))
    {
      if id >= |coupons| || !CouponLive(coupons[id], now) {
        return Some(CouponNotRevokable);
      }
      coupons := coupons[id := coupons[id].(status := CouponRevoked)];
      return None;
    }

    method GiveCoupons(userId: nat, template: CouponTemplate, qty: nat, expiresAt: Option<int>)
      modifies `coupons
      ensures coupons == old(coupons) + seq(qty, _ => FromTemplate(userId, template, expiresAt))
    {
      ghost var mine := seq(qty, _ => FromTemplate(userId, template, expiresAt));
      for j := 0 to qty
        invariant coupons == old(coupons) + mine[..j]
      {
        coupons := coupons + [FromTemplate(userId, template, expiresAt)];
      }
    }

    /** Deduplicate, lock the users in ascending order, and give each of them qty coupons. */
    method AdminBulkGrantCoupon(userIds: seq<nat>, template: CouponTemplate, qty: nat, expiresAt: Option<int>)
      returns (why: Option<Failure>)
      modifies this
      ensures why == Why(GrantCoupons(old(State()), Ascending(Normalized(userIds)), template, qty, expiresAt))
      ensures State() == GrantCoupons(old(State()), Ascending(Normalized(userIds)), template, qty, expiresAt)
                           .After(old(State()))
    {
      hide Normalized, Ascending, CouponBatch;
      EmptyBatch(template, qty, expiresAt);
      var unique := Normalize(userIds);
      var rows := Ascending(unique);
      assert rows[..0] == [] && rows[0..] == rows;
      var saved := State();
      why := None;
      label tx: {
        if !template.enabled {
          why := Some(TemplateChanged);
          break tx;
        }
        for i := 0 to |rows|
          invariant State() == saved.(coupons := saved.coupons + CouponBatch(rows[..i], template, qty, expiresAt))
          invariant BatchRefusal(saved.users, rows) == BatchRefusal(saved.users, rows[i..])
        {
          var userId := rows[i];
          assert rows[i..][0] == userId && rows[i..][1..] == rows[i + 1..];
          if userId >= |users| {
            why := Some(UserMissing);
            break tx;
          }
          if !users[userId].enabled {
            why := Some(TargetUserChanged);
            break tx;
          }
          GiveCoupons(userId, template, qty, expiresAt);
          BatchGrows(rows, i, template, qty, expiresAt);
        }
        assert rows[..|rows|] == rows && rows[|rows|..] == [];
      }
      if why.Some? {
        Restore(saved);
      }
    }

    // --- Usage reset ----------------------------------------------------------------------------------

    /** The users of the listed subscriptions, each once, in order of first appearance. */
    method CollectUsers(ids: seq<nat>) returns (unique: seq<nat>)
      requires forall k :: 0 <= k < |ids| ==> ids[k] < |subs|
      ensures UsersOf(subs, ids, unique)
    {
      unique := [];
      var seen: set<nat> := {};
      for i := 0 to |ids|
        invariant forall u: nat :: u in seen <==> u in unique
        invariant forall u: nat :: u in unique <==> exists k :: 0 <= k < i && subs[ids[k]].userId == u
      {
        var userId := subs[ids[i]].userId;
        if userId !in seen {
          seen := seen + {userId};
          unique := unique + [userId];
        }
      }
    }

    /** Per user, the plans in the snapshots of the listed subscriptions. */
    method CollectPlans(ids: seq<nat>) returns (plansByUser: map<nat, set<nat>>)
      requires forall k :: 0 <= k < |ids| ==> ids[k] < |subs|
      ensures PlansOf(subs, ids, plansByUser)
    {
      plansByUser := map[];
      for i := 0 to |ids|
        invariant forall u: nat, p: nat :: PlanListed(plansByUser, u, p) <==>
                    exists k :: 0 <= k < i && subs[ids[k]].userId == u && p in subs[ids[k]].planIds
      {
        var s := subs[ids[i]];
        ghost var before := plansByUser;
        for j := 0 to |s.planIds|
          invariant forall u: nat, p: nat :: PlanListed(plansByUser, u, p) <==>
                      PlanListed(before, u, p) || (u == s.userId && p in s.planIds[..j])
        {
          assert s.planIds[..j + 1] == s.planIds[..j] + [s.planIds[j]];
          PlanAdded(plansByUser, s.userId, s.planIds[j]);
          if s.userId !in plansByUser {
            plansByUser := plansByUser[s.userId := {}];
          }
          plansByUser := plansByUser[s.userId := plansByUser[s.userId] + {s.planIds[j]}];
        }
        assert s.planIds[..|s.planIds|] == s.planIds;
      }
    }

    /** One update per user. */
    method ClearCounters(unique: seq<nat>, plansByUser: map<nat, set<nat>>, now: int)
      modifies `usage
      ensures usage == ClearedFor(old(usage), unique, plansByUser, now)
    {
      hide ClearedFor;
      NoneCleared(usage, plansByUser, now);
      assert unique[..0] == [];
      for i := 0 to |unique|
        invariant usage == ClearedFor(old(usage), unique[..i], plansByUser, now)
      {
        OneMoreCleared(old(usage), unique, i, plansByUser, now);
        var userId := unique[i];
        if userId in plansByUser {
          var planSet := plansByUser[userId];
          usage := map key | key in usage ::
            if key.userId == userId && key.planId in planSet then Zeroed(usage[key], now) else usage[key];
        }
      }
      assert unique[..|unique|] == unique;
    }

    /** The audit entries; existing holds the subscriptions whose reset entry is already linked. */
    method WriteResetEntries(ids: seq<nat>, existing: set<nat>, quotas: map<nat, int>, now: int,
                             ghost written: seq<Entry>)
      returns (why: Option<Failure>)
      requires forall k :: 0 <= k < |ids| ==> ids[k] < |subs|
      requires forall k :: 0 <= k < |ids| ==>
                 (ids[k] in existing <==> Count(written, AdminAdjust, ResetLink(ids[k])) > 0)
      requires forall k :: 0 <= k < |ids| ==>
                 subs[ids[k]].userId < |users| ==> subs[ids[k]].userId in quotas
      requires forall u: nat :: u in quotas ==> u < |users| && quotas[u] == users[u].quota
      modifies `entries
      ensures var out := WriteResets(old(State()), ids, written, now);
              why == Why(out) && (out.Commit? ==> State() == out.db)
    {
      hide WriteEntry, Count;
      for i := 0 to |ids|
        invariant WriteResets(old(State()), ids, written, now) == WriteResets(State(), ids[i..], written, now + i)
      {
        assert ids[i..][0] == ids[i] && ids[i..][1..] == ids[i + 1..];
        var owner := subs[ids[i]].userId;
        var link := if ids[i] in existing then NoLink else ResetLink(ids[i]);
        var quota := if owner in quotas then quotas[owner] else 0;
        why := WriteBillingEntry(Entry(owner, AdminAdjust, Settled, 0, quota, link, 0, now + i));
        if why.Some? {
          return;
        }
      }
      why := None;
    }

    method AdminResetSubscriptionUsage(packageIds: seq<nat>, userIds: seq<nat>, statuses: seq<SubStatus>, now: int)
      returns (why: Option<Failure>)
      modifies this
      ensures why == Why(ResetUsage(old(State()), ScopeOf(Normalized(packageIds), Normalized(userIds), statuses), now))
      ensures State() == ResetUsage(old(State()), ScopeOf(Normalized(packageIds), Normalized(userIds), statuses), now)
                           .After(old(State()))
    {
      hide Normalized, ResetUsage;
      var packageRows := Normalize(packageIds);
      var userRows := Normalize(userIds);
      why := ResetScoped(ScopeOf(packageRows, userRows, statuses), now);
    }

    /** The reset transaction for a parsed scope. */
    method ResetScoped(scope: ResetScope, now: int) returns (why: Option<Failure>)
      modifies this
      ensures why == Why(ResetUsage(old(State()), scope, now))
      ensures State() == ResetUsage(old(State()), scope, now).After(old(State()))
    {
      hide WriteResets, Count, Matched, ClearUsage, ClearedFor, UsersOf, PlansOf;
      var saved := State();
      var ids := Matched(subs, scope, now);
      if |ids| > RESET_SCOPE_MAX {
        return Some(ResetScopeTooLarge);
      }
      var unique := CollectUsers(ids);
      var quotas := map u | u in unique && u < |users| :: users[u].quota;
      var existing := set id | id in ids && Count(entries, AdminAdjust, ResetLink(id)) > 0;
      var plansByUser := CollectPlans(ids);
      ClearCounters(unique, plansByUser, now);
      ClearedIsClear(saved.usage, saved.subs, ids, unique, plansByUser, now);
      why := WriteResetEntries(ids, existing, quotas, now, saved.entries);
      if why.Some? {
        Restore(saved);
      }
    }

    // --- Summary ------------------------------------------------------------------------------------------

    /** One user's settled entries grouped by kind, money in and money out. */
    method BillingSummary(userId: nat) returns (rows: seq<SummaryRow>, totalIn: int, totalOut: int)
      ensures rows == GroupedByKind(entries, userId)
      ensures totalIn == MoneyIn(rows) && totalOut == MoneyOut(rows)
      ensures totalIn - totalOut == SettledSum(entries, userId)
    {
      rows := GroupedByKind(entries, userId);
      totalIn, totalOut := 0, 0;
      for i := 0 to |rows|
        invariant totalIn == MoneyIn(rows[..i]) && totalOut == MoneyOut(rows[..i])
      {
        assert rows[..i + 1][..i] == rows[..i];
        if rows[i].total > 0 {
          totalIn := totalIn + rows[i].total;
        } else {
          totalOut := totalOut + -rows[i].total;
        }
      }
      assert rows[..|rows|] == rows;
      InMinusOut(rows);
      GroupingKeepsSum(entries, userId);
    }
  }

  ghost predicate PlanListed(plansByUser: map<nat, set<nat>>, userId: nat, planId: nat) {
    userId in plansByUser && planId in plansByUser[userId]
  }

  /** Exactly the owners of the listed subscriptions. */
  ghost predicate UsersOf(subs: seq<Sub>, ids: seq<nat>, unique: seq<nat>)
    requires forall k :: 0 <= k < |ids| ==> ids[k] < |subs|
  {
    forall u: nat :: u in unique <==> exists k :: 0 <= k < |ids| && subs[ids[k]].userId == u
  }

  /** Exactly the plans in their snapshots, by owner. */
  ghost predicate PlansOf(subs: seq<Sub>, ids: seq<nat>, plansByUser: map<nat, set<nat>>)
    requires forall k :: 0 <= k < |ids| ==> ids[k] < |subs|
  {
    forall u: nat, p: nat :: PlanListed(plansByUser, u, p) <==>
                             exists k :: 0 <= k < |ids| && subs[ids[k]].userId == u && p in subs[ids[k]].planIds
  }

  lemma PlanAdded(plansByUser: map<nat, set<nat>>, userId: nat, planId: nat)
    ensures var started := if userId in plansByUser then plansByUser else plansByUser[userId := {}];
            var added := started[userId := started[userId] + {planId}];
            forall u: nat, p: nat ::
              PlanListed(added, u, p) <==> PlanListed(plansByUser, u, p) || (u == userId && p == planId)
  {
    var started := if userId in plansByUser then plansByUser else plansByUser[userId := {}];
    var added := started[userId := started[userId] + {planId}];
    forall u: nat, p: nat
      ensures PlanListed(added, u, p) <==> PlanListed(plansByUser, u, p) || (u == userId && p == planId)
    {
      if u == userId {
        assert added[u] == started[u] + {planId};
      } else {
        assert u in added <==> u in plansByUser;
      }
    }
  }

  ghost function ClearedFor(usage: map<UsageKey, Usage>, users: seq<nat>, plansByUser: map<nat, set<nat>>, now: int):
    map<UsageKey, Usage>
  {
    map key | key in usage ::
      if key.userId in users && PlanListed(plansByUser, key.userId, key.planId) then Zeroed(usage[key], now)
      else usage[key]
  }

  lemma NoneCleared(usage: map<UsageKey, Usage>, plansByUser: map<nat, set<nat>>, now: int)
    ensures ClearedFor(usage, [], plansByUser, now) == usage
  {
  }

  /** The update for one more user, on counters already cleared for the earlier ones. */
  lemma OneMoreCleared(usage: map<UsageKey, Usage>, users: seq<nat>, i: nat, plansByUser: map<nat, set<nat>>, now: int)
    requires i < |users|
    ensures users[i] !in plansByUser ==>
              ClearedFor(usage, users[..i + 1], plansByUser, now) == ClearedFor(usage, users[..i], plansByUser, now)
    ensures users[i] in plansByUser ==>
              var cleared := ClearedFor(usage, users[..i], plansByUser, now);
              ClearedFor(usage, users[..i + 1], plansByUser, now) ==
              map key | key in cleared ::
                if key.userId == users[i] && key.planId in plansByUser[users[i]] then Zeroed(cleared[key], now)
                else cleared[key]
  {
    var cleared := ClearedFor(usage, users[..i], plansByUser, now);
    var next := ClearedFor(usage, users[..i + 1], plansByUser, now);
    assert users[..i + 1] == users[..i] + [users[i]];
    assert cleared.Keys == usage.Keys == next.Keys;
    forall key | key in usage
      ensures next[key] == if key.userId == users[i] && PlanListed(plansByUser, users[i], key.planId)
                           then Zeroed(cleared[key], now) else cleared[key]
    {
      assert key.userId in users[..i + 1] <==> key.userId in users[..i] || key.userId == users[i];
    }
  }

  /** Grouping plans by user first clears the same counters. */
  lemma ClearedIsClear(usage: map<UsageKey, Usage>, subs: seq<Sub>, ids: seq<nat>, users: seq<nat>,
                       plansByUser: map<nat, set<nat>>, now: int)
    requires forall k :: 0 <= k < |ids| ==> ids[k] < |subs|
    requires UsersOf(subs, ids, users) && PlansOf(subs, ids, plansByUser)
    ensures ClearedFor(usage, users, plansByUser, now) == ClearUsage(usage, subs, ids, now)
  {
    forall key | key in usage
      ensures (key.userId in users && PlanListed(plansByUser, key.userId, key.planId)) <==> Hits(subs, ids, key)
    {
    }
  }

  lemma NothingSummed()
    ensures Sum([]) == 0
  {
  }

  lemma NothingPosted(db: DB, userId: nat, kind: Kind, firstSub: nat, at: int)
    ensures PostUnits(db, userId, kind, [], firstSub, at) == Commit(db)
  {
  }

  /** One unit posted, the others still to come. */
  lemma UnitsStep(db: DB, moved: DB, userId: nat, kind: Kind, amount: int, rest: seq<int>, firstSub: nat, at: int,
                  e: Entry)
    requires userId < |db.users| && moved == AddQuota(db, userId, amount)
    requires e == Entry(userId, kind, Settled, amount, moved.users[userId].quota, SubLink(firstSub), 0, at)
    ensures PostUnits(db, userId, kind, [amount] + rest, firstSub, at) ==
            match WriteEntry(moved, e)
            case Commit(next) => PostUnits(next, userId, kind, rest, firstSub + 1, at + 1)
            case Abort(why) => Abort(why)
  {
    assert ([amount] + rest)[1..] == rest;
  }

  /** Appending an entry looks only at the ledger. */
  lemma WriteEntryLocal(db: DB, db1: DB, e: Entry)
    requires db1.entries == db.entries && db1.linkIndex == db.linkIndex
    ensures Why(WriteEntry(db1, e)) == Why(WriteEntry(db, e))
    ensures WriteEntry(db, e).Commit? ==>
              && WriteEntry(db, e).db.entries == db.entries + [e]
              && WriteEntry(db1, e).db == db1.(entries := db.entries + [e])
              && WriteEntry(db, e).db == db.(entries := db.entries + [e])
  {
  }

  function Rolled(users: seq<User>, userId: nat, quota: int): seq<User>
    requires userId < |users|
  {
    users[userId := users[userId].(quota := quota)]
  }

  /** One turn of the rolling loop: the entry written on the actual tables is the one the unit posts. */
  lemma UnitRolled(rolled: DB, actual: DB, userId: nat, kind: Kind, amounts: seq<int>, i: nat, firstSub: nat, at: int,
                   e: Entry)
    requires userId < |rolled.users| && i < |amounts|
    requires actual.entries == rolled.entries && actual.linkIndex == rolled.linkIndex
    requires e == Entry(userId, kind, Settled, amounts[i], rolled.users[userId].quota + amounts[i],
                        SubLink(firstSub + i), 0, at + i)
    ensures WriteEntry(actual, e).Commit? ==>
              && WriteEntry(actual, e).db == actual.(entries := rolled.entries + [e])
              && PostUnits(rolled, userId, kind, amounts[i..], firstSub + i, at + i)
                 == PostUnits(rolled.(users := Rolled(rolled.users, userId, e.balanceAfter),
                                      entries := rolled.entries + [e]),
                              userId, kind, amounts[i + 1..], firstSub + i + 1, at + i + 1)
    ensures WriteEntry(actual, e).Abort? ==>
              PostUnits(rolled, userId, kind, amounts[i..], firstSub + i, at + i) == Abort(WriteEntry(actual, e).why)
  {
    hide WriteEntry, PostUnits;
    var moved := AddQuota(rolled, userId, amounts[i]);
    assert amounts[i..] == [amounts[i]] + amounts[i + 1..];
    UnitsStep(rolled, moved, userId, kind, amounts[i], amounts[i + 1..], firstSub + i, at + i, e);
    WriteEntryLocal(actual, moved, e);
  }

  lemma RefusalRange(db: DB, userId: nat, packageId: nat, qty: nat, checkedAt: int)
    requires PurchaseRefusal(db, userId, packageId, qty, checkedAt) == None
    ensures userId < |db.users| && packageId < |db.packages| && qty >= 1 && 0 <= db.packages[packageId].price
  {
  }

  /** Using a coupon does not change its price. */
  lemma SamePrice(c: Coupon, c': Coupon, basePrice: int)
    requires c'.fixedPrice == c.fixedPrice && c'.value == c.value
    ensures EffectivePrice(c', basePrice) == EffectivePrice(c, basePrice)
  {
  }

  lemma EmptyBatch(template: CouponTemplate, qty: nat, expiresAt: Option<int>)
    ensures CouponBatch([], template, qty, expiresAt) == []
  {
  }

  lemma BatchGrows(rows: seq<nat>, i: nat, template: CouponTemplate, qty: nat, expiresAt: Option<int>)
    requires i < |rows|
    ensures CouponBatch(rows[..i + 1], template, qty, expiresAt)
            == CouponBatch(rows[..i], template, qty, expiresAt)
               + seq(qty, _ => FromTemplate(rows[i], template, expiresAt))
  {
    assert rows[..i + 1][..i] == rows[..i];
  }

  lemma GrantRange(db: DB, userId: nat, packageId: nat, qty: nat, checkedAt: int)
    requires GrantRefusal(db, userId, packageId, qty, checkedAt) == None
    ensures userId < |db.users| && packageId < |db.packages|
  {
  }

  lemma QuoteTotal(db: DB, packageId: nat, qty: nat, couponId: Option<nat>)
    requires packageId < |db.packages| && qty >= 1
    ensures var pkg := db.packages[packageId];
            Sum(Prices(FirstPrice(db, pkg, couponId), pkg.price, qty)) == TotalPrice(db, packageId, qty, couponId)
  {
    PricesSum(FirstPrice(db, db.packages[packageId], couponId), db.packages[packageId].price, qty);
  }

  lemma PricesRange(first: int, listPrice: int, qty: nat)
    ensures |Prices(first, listPrice, qty)| == qty
    ensures 0 <= first <= listPrice ==>
              forall i :: 0 <= i < qty ==> 0 <= Prices(first, listPrice, qty)[i] <= listPrice
  {
  }

  /** The coupon table after the coupon was marked used, before it is linked. */
  function Touched(coupons: seq<Coupon>, couponId: Option<nat>, now: int): seq<Coupon> {
    if couponId.None? || couponId.value >= |coupons| then coupons
    else coupons[couponId.value := coupons[couponId.value].(status := Used, usedAt := Some(now))]
  }

  lemma BoughtWritten(db: DB, userId: nat, packageId: nat, prices: seq<int>, couponId: Option<nat>, now: int)
    requires packageId < |db.packages|
    requires var pkg := db.packages[packageId];
             prices == Prices(FirstPrice(db, pkg, couponId), pkg.price, |prices|)
    ensures var pkg := db.packages[packageId];
            BoughtSubs(db, userId, packageId, |prices|, couponId, now)
            == NewSubs(userId, packageId, pkg, prices, false, NextIndex(db.subs, userId, packageId), couponId, now,
                       now + pkg.period * 1_000_000)
  {
    hide Prices, FirstPrice, NextIndex, NewSubs;
  }

  /** Debit, subscriptions and the linked coupon, written one after the other, are the specified rows. */
  lemma RowsWritten(db: DB, userId: nat, packageId: nat, qty: nat, couponId: Option<nat>, now: int, total: int)
    requires userId < |db.users| && packageId < |db.packages|
    requires couponId.Some? ==> couponId.value < |db.coupons|
    ensures var pkg := db.packages[packageId];
            var touched := Touched(db.coupons, couponId, now);
            var saving := pkg.price - FirstPrice(db, pkg, couponId);
            var rows := WithRows(db, userId, packageId, qty, couponId, now);
            && rows.users == db.users
            && AddQuota(rows, userId, -total)
               == db.(users := db.users[userId := db.users[userId].(quota := db.users[userId].quota - total)],
                      subs := db.subs + BoughtSubs(db, userId, packageId, qty, couponId, now),
                      coupons := if couponId.None? then db.coupons
                                 else touched[couponId.value := touched[couponId.value].(usedOn := Some(|db.subs|),
                                                                                         saving := saving)])
  {
    hide BoughtSubs, FirstPrice;
  }

  lemma RowsUsers(db: DB, userId: nat, packageId: nat, qty: nat, couponId: Option<nat>, now: int)
    requires packageId < |db.packages|
    ensures WithRows(db, userId, packageId, qty, couponId, now).users == db.users
  {
    hide BoughtSubs, FirstPrice;
  }

  lemma Undebited(db: DB, userId: nat, total: int)
    requires userId < |db.users|
    ensures var debited := AddQuota(db, userId, -total);
            debited.(users := debited.users[userId := debited.users[userId].(
                       quota := debited.users[userId].quota + total)]) == db
  {
  }

  lemma FirstOfPrices(first: int, listPrice: int, qty: nat)
    requires qty >= 1
    ensures Prices(first, listPrice, qty)[0] == first
  {
  }

  lemma FirstPriceRange(db: DB, pkg: Package, couponId: Option<nat>)
    requires pkg.price >= 0
    ensures 0 <= FirstPrice(db, pkg, couponId) <= pkg.price
  {
  }
}
