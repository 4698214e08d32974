/** What purchases, grants and coupons decide, in terms of the rows alone: which coupon is accepted and
    at which price, when a purchase or a grant goes through, and what the new rows hold. */
module PurchaseDecisions {
  import opened Options
  import opened Money
  import opened Model
  import opened Ledger
  import opened Rewards
  import opened Subscriptions
  import opened Invariants
  import opened PurchaseProofs
  import opened SubscriptionProofs
  import opened Runs
  import opened Movements
  import opened RewardDecisions

  // --- The reference -----------------------------------------------------------------------

  /** Every plan of the package exists, is enabled and, if its cost is metered against a positive
      limit, has one that is positive in micro-USD. */
  ghost predicate PlansUsable(pkg: Package, plans: seq<Plan>) {
    forall p :: p in pkg.planIds ==>
      p < |plans| && plans[p].enabled && (plans[p].costMetered && plans[p].limitPositive ==> plans[p].limitMicro > 0)
  }

  /** The subscriptions of this user and package that are active and run beyond t. */
  function Running(subs: seq<Sub>, userId: nat, packageId: nat, t: int): set<nat> {
    set i: nat | i < |subs| && subs[i].userId == userId && subs[i].packageId == packageId
                 && subs[i].status == Active && subs[i].endAt > t
  }

  /** A package that is not stackable allows one; no limit or a negative one allows any number. */
  ghost predicate WithinStack(db: DB, userId: nat, packageId: nat, qty: nat, t: int)
    requires packageId < |db.packages|
  {
    var pkg := db.packages[packageId];
    && (!pkg.stackable ==> |Running(db.subs, userId, packageId, t)| + qty <= 1)
    && (pkg.stackable && pkg.maxActive > 0 ==> |Running(db.subs, userId, packageId, t)| + qty <= pkg.maxActive)
  }

  /** The coupon is this user's, available, not expired, meant for this package or for all, and, if it
      fixes a price, at a positive one not below the cost floor or, where none is set, the list price. */
  ghost predicate Accepted(c: Coupon, userId: nat, packageId: nat, pkg: Package, now: int) {
    && c.userId == userId && c.status == Available
    && (c.expiresAt.Some? ==> now < c.expiresAt.value)
    && c.packages.Some? && (c.packages.value == [] || packageId in c.packages.value)
    && (c.fixedPrice ==> c.value > 0)
    && (c.fixedPrice && pkg.costFloor > 0 ==> c.value >= pkg.costFloor)
    && (c.fixedPrice && pkg.costFloor <= 0 ==> c.value >= pkg.price)
  }

  /** What the first unit costs: the fixed price of the coupon if that is at most the list price, else
      the list price. */
  function UnitCost(coupons: seq<Coupon>, coupon: Option<nat>, price: int): int {
    if coupon.Some? && coupon.value < |coupons| && coupons[coupon.value].fixedPrice
       && coupons[coupon.value].value <= price then coupons[coupon.value].value
    else price
  }

  // --- Counting and pricing --------------------------------------------------------------------

  lemma {:induction false} CountsRunning(subs: seq<Sub>, userId: nat, packageId: nat, t: int)
    ensures ActiveCount(subs, userId, packageId, t) == |Running(subs, userId, packageId, t)|
  {
    if subs != [] {
      var last := |subs| - 1;
      CountsRunning(subs[..last], userId, packageId, t);
      RunningSnoc(subs, userId, packageId, t);
      hide Running;
    }
  }

  lemma RunningSnoc(subs: seq<Sub>, userId: nat, packageId: nat, t: int)
    requires subs != []
    ensures var last := |subs| - 1;
            var before := Running(subs[..last], userId, packageId, t);
            last !in before
            && Running(subs, userId, packageId, t)
               == if ActiveAt(subs[last], userId, packageId, t) then before + {last} else before
  {
  }

  /** The highest index looked up is the highest among the user's subscriptions of the package, in any table. */
  lemma {:induction false} MaxExactly(subs: seq<Sub>, userId: nat, packageId: nat, m: int)
    ensures MaxIndex(subs, userId, packageId) == Some(m) <==>
            && (exists i :: 0 <= i < |subs| && subs[i].userId == userId && subs[i].packageId == packageId
                            && subs[i].stackIndex == m)
            && (forall i :: 0 <= i < |subs| && subs[i].userId == userId && subs[i].packageId == packageId ==>
                  subs[i].stackIndex <= m)
    ensures MaxIndex(subs, userId, packageId) == None <==>
            forall i :: 0 <= i < |subs| ==> subs[i].userId != userId || subs[i].packageId != packageId
  {
    if subs != [] {
      var front := subs[..|subs| - 1];
      MaxExactly(front, userId, packageId, m);
      var rest := MaxIndex(front, userId, packageId);
      if rest.Some? {
        MaxExactly(front, userId, packageId, rest.value);
      }
      assert forall i :: 0 <= i < |front| ==> front[i] == subs[i];
    }
  }

  lemma FitsLimit(db: DB, userId: nat, packageId: nat, qty: nat, t: int)
    requires packageId < |db.packages| && qty >= 1
    ensures OverLimit(db, userId, packageId, db.packages[packageId], qty, t)
            <==> !WithinStack(db, userId, packageId, qty, t)
  {
    CountsRunning(db.subs, userId, packageId, t);
  }

  lemma AcceptedExactly(c: Coupon, userId: nat, packageId: nat, pkg: Package, now: int)
    requires pkg.price >= 0
    ensures CouponRefusal(c, userId, packageId, pkg, now) == None <==> Accepted(c, userId, packageId, pkg, now)
  {
  }

  lemma SnapshotExactly(pkg: Package, plans: seq<Plan>)
    ensures SnapshotBuilds(pkg, plans) <==> PlansUsable(pkg, plans)
  {
    if SnapshotBuilds(pkg, plans) {
      forall p | p in pkg.planIds ensures PlanUsable(plans, p) {
        var i :| 0 <= i < |pkg.planIds| && pkg.planIds[i] == p;
        assert PlanUsable(plans, pkg.planIds[i]);
      }
    }
    assert forall i :: 0 <= i < |pkg.planIds| ==> pkg.planIds[i] in pkg.planIds;
  }

  lemma FirstCost(db: DB, pkg: Package, coupon: Option<nat>)
    requires pkg.price >= 0
    requires coupon.Some? ==> coupon.value < |db.coupons|
    requires coupon.Some? && db.coupons[coupon.value].fixedPrice ==> db.coupons[coupon.value].value > 0
    ensures FirstPrice(db, pkg, coupon) == UnitCost(db.coupons, coupon, pkg.price)
  {
  }

  // --- Purchase ------------------------------------------------------------------------------------

  /** A purchase goes through exactly when 1 to 100 units are asked for by an existing user of an
      enabled, published package with a price, a period of up to five years and usable plans, the
      units fit the limit, the coupon, if any, is accepted, and the total fits int64 and the quota. */
  ghost predicate MayBuy(db: DB, userId: nat, packageId: nat, qty: nat, coupon: Option<nat>, now: int, checkedAt: int) {
    && 1 <= qty <= 100 && userId < |db.users| && packageId < |db.packages|
    && var pkg := db.packages[packageId];
       && pkg.enabled && pkg.published && pkg.price >= 0 && 0 < pkg.period <= 158_112_000
       && PlansUsable(pkg, db.plans) && WithinStack(db, userId, packageId, qty, checkedAt)
       && (coupon.Some? ==> coupon.value < |db.coupons|
                            && Accepted(db.coupons[coupon.value], userId, packageId, pkg, now))
       && var total := UnitCost(db.coupons, coupon, pkg.price) + (qty - 1) * pkg.price;
          total <= MAX_INT64 && (total > 0 ==> total <= db.users[userId].quota)
  }

  lemma TotalExactly(db: DB, packageId: nat, qty: nat, coupon: Option<nat>)
    requires packageId < |db.packages| && db.packages[packageId].price >= 0
    requires coupon.Some? ==> coupon.value < |db.coupons|
    requires coupon.Some? && db.coupons[coupon.value].fixedPrice ==> db.coupons[coupon.value].value > 0
    ensures var price := db.packages[packageId].price;
            TotalPrice(db, packageId, qty, coupon) == UnitCost(db.coupons, coupon, price) + (qty - 1) * price
  {
    hide FirstPrice, UnitCost;
    FirstCost(db, db.packages[packageId], coupon);
  }

  lemma PurchasableExactly(db: DB, userId: nat, packageId: nat, qty: nat, coupon: Option<nat>, now: int,
                           checkedAt: int)
    ensures Purchasable(db, userId, packageId, qty, coupon, now, checkedAt)
            <==> MayBuy(db, userId, packageId, qty, coupon, now, checkedAt)
  {
    hide SnapshotBuilds, PlansUsable, OverLimit, WithinStack, CouponRefusal, TotalPrice, UnitCost;
    if 1 <= qty && packageId < |db.packages| && db.packages[packageId].price >= 0 {
      var pkg := db.packages[packageId];
      SnapshotExactly(pkg, db.plans);
      FitsLimit(db, userId, packageId, qty, checkedAt);
      if coupon.None? || coupon.value < |db.coupons| {
        if coupon.Some? {
          AcceptedExactly(db.coupons[coupon.value], userId, packageId, pkg, now);
        }
        if coupon.Some? ==> Accepted(db.coupons[coupon.value], userId, packageId, pkg, now) {
          TotalExactly(db, packageId, qty, coupon);
        }
      }
    }
  }

  /** The coupon table after a purchase: the coupon is used up, by the first new subscription, and records
      what it saved; no other coupon changes. */
  ghost predicate CouponsAfter(db: DB, db': DB, coupon: Option<nat>, saving: int, now: int) {
    if coupon.None? then db'.coupons == db.coupons
    else
      && coupon.value < |db.coupons|
      && db'.coupons == db.coupons[coupon.value := db.coupons[coupon.value].(
                                     status := Used, usedAt := Some(now), usedOn := Some(|db.subs|), saving := saving)]
  }

  /** The new subscriptions: the first one at the unit cost with the coupon, the others at the list price;
      all active from now for the package's period, with its price and plans as the snapshot. */
  ghost predicate SubsBought(db: DB, db': DB, userId: nat, packageId: nat, qty: nat, coupon: Option<nat>, now: int)
    requires packageId < |db.packages|
  {
    var pkg := db.packages[packageId];
    && |db'.subs| == |db.subs| + qty && db.subs <= db'.subs
    && forall i :: |db.subs| <= i < |db'.subs| ==>
         db'.subs[i] == Sub(userId, packageId, now, now + pkg.period * 1_000_000, None, db'.subs[i].stackIndex,
                            Active, false,
                            if i == |db.subs| then UnitCost(db.coupons, coupon, pkg.price) else pkg.price,
                            pkg.price, pkg.planIds, if i == |db.subs| then coupon else None)
  }

  lemma BoughtExactly(db: DB, userId: nat, packageId: nat, qty: nat, coupon: Option<nat>, now: int, subs: seq<Sub>)
    requires packageId < |db.packages| && qty >= 1
    requires FirstPrice(db, db.packages[packageId], coupon)
             == UnitCost(db.coupons, coupon, db.packages[packageId].price)
    requires subs == db.subs + BoughtSubs(db, userId, packageId, qty, coupon, now)
    ensures SubsBought(db, db.(subs := subs), userId, packageId, qty, coupon, now)
  {
    hide FirstPrice, UnitCost, NextIndex;
  }

  lemma RowsExactly(db: DB, userId: nat, packageId: nat, qty: nat, coupon: Option<nat>, now: int, rows: DB)
    requires packageId < |db.packages| && qty >= 1 && (coupon.Some? ==> coupon.value < |db.coupons|)
    requires FirstPrice(db, db.packages[packageId], coupon)
             == UnitCost(db.coupons, coupon, db.packages[packageId].price)
    requires rows == WithRows(db, userId, packageId, qty, coupon, now)
    ensures SubsBought(db, rows, userId, packageId, qty, coupon, now)
    ensures var price := db.packages[packageId].price;
            CouponsAfter(db, rows, coupon, price - UnitCost(db.coupons, coupon, price), now)
  {
    hide FirstPrice, UnitCost, BoughtSubs, SubsBought;
    BoughtExactly(db, userId, packageId, qty, coupon, now, rows.subs);
    SameSubs(db, db.(subs := rows.subs), rows, userId, packageId, qty, coupon, now);
  }

  lemma SameSubs(db: DB, db1: DB, db2: DB, userId: nat, packageId: nat, qty: nat, coupon: Option<nat>, now: int)
    requires packageId < |db.packages| && db1.subs == db2.subs
    requires SubsBought(db, db1, userId, packageId, qty, coupon, now)
    ensures SubsBought(db, db2, userId, packageId, qty, coupon, now)
  {
  }

  lemma DeliveredRows(db: DB, userId: nat, packageId: nat, qty: nat, coupon: Option<nat>, now: int, checkedAt: int,
                      bps: int, windowSeconds: int, db': DB)
    requires Inv(db) && Purchasable(db, userId, packageId, qty, coupon, now, checkedAt)
    requires Deliver(db, userId, packageId, qty, coupon, now, bps, windowSeconds) == Commit(db')
    ensures var rows := WithRows(db, userId, packageId, qty, coupon, now);
            db'.subs == rows.subs && db'.coupons == rows.coupons
  {
    hide InvUpTo, PostUnits, SpendReward, WithRows, BoughtAmounts, Purchasable, TotalPrice;
    BoughtPosted(db, userId, packageId, qty, coupon, now, checkedAt);
    PurchasePackage(db, userId, packageId, qty, coupon, now, checkedAt);
    var db2 := PostUnits(WithRows(db, userId, packageId, qty, coupon, now), userId, PurchaseSub,
                         BoughtAmounts(db, packageId, qty, coupon), |db.subs|, now).db;
    RewardProofsFrame(db2, userId, TotalPrice(db, packageId, qty, coupon), bps, windowSeconds, now,
                      SubLink(|db.subs|));
  }

  lemma PurchasePackage(db: DB, userId: nat, packageId: nat, qty: nat, coupon: Option<nat>, now: int, checkedAt: int)
    requires Purchasable(db, userId, packageId, qty, coupon, now, checkedAt)
    ensures userId < |db.users| && packageId < |db.packages| && qty >= 1
  {
  }

  lemma RewardProofsFrame(db: DB, userId: nat, spend: int, bps: int, windowSeconds: int, at: int, link: Link)
    ensures var out := SpendReward(db, userId, spend, bps, windowSeconds, at, link);
            out.Commit? ==> out.db.subs == db.subs && out.db.coupons == db.coupons
  {
    hide RewardAmount, RemainingPaid, Count;
  }

  /** Over every run: a purchase commits exactly when it may, and then, with `first` the fixed price of
      the coupon if it has one of at most the list price and the list price otherwise: the buyer spends
      first plus the list price of the other units, the first new subscription is recorded at first and
      the others at the list price, and the coupon records the list price minus first as saved. */
  lemma PurchaseExactly(linkIndex: bool, steps: seq<Step>, userId: nat, packageId: nat, qty: nat, coupon: Option<nat>,
                        env: Env) returns (r: int)
    ensures var db := Run(linkIndex, steps).db;
            match Perform(db, Buy(userId, packageId, qty, coupon), env)
            case Abort(_) => !MayBuy(db, userId, packageId, qty, coupon, env.now, env.checkedAt)
            case Commit(db') =>
              && MayBuy(db, userId, packageId, qty, coupon, env.now, env.checkedAt)
              && var price := db.packages[packageId].price;
                 var fixed := coupon.Some? && db.coupons[coupon.value].fixedPrice
                              && db.coupons[coupon.value].value <= price;
                 var first := if fixed then db.coupons[coupon.value].value else price;
                 && SubsBought(db, db', userId, packageId, qty, coupon, env.now)
                 && db'.subs[|db.subs|].unitPrice == first
                 && CouponsAfter(db, db', coupon, price - first, env.now)
                 && SpendEffect(db.users, db'.users, userId, first + (qty - 1) * price, env.bps, env.windowSeconds,
                                env.now, r)
  {
    hide InvUpTo, Run, Purchasable, SubsBought, CouponsAfter, SpendEffect, Spent, Deliver, PlansUsable, WithinStack,
         Accepted, TotalPrice;
    var db := Run(linkIndex, steps).db;
    Reachable(linkIndex, steps);
    PurchasableExactly(db, userId, packageId, qty, coupon, env.now, env.checkedAt);
    PurchaseKeeps(db, userId, packageId, qty, coupon, env.now, env.checkedAt, env.bps, env.windowSeconds);
    r := 0;
    var out := Perform(db, Buy(userId, packageId, qty, coupon), env);
    if out.Commit? {
      r := CommittedPurchase(db, userId, packageId, qty, coupon, env, out.db);
    }
  }

  lemma CommittedPurchase(db: DB, userId: nat, packageId: nat, qty: nat, coupon: Option<nat>, env: Env, db': DB)
    returns (r: int)
    requires Inv(db) && MayBuy(db, userId, packageId, qty, coupon, env.now, env.checkedAt)
    requires Purchase(db, userId, packageId, qty, coupon, env.now, env.checkedAt, env.bps, env.windowSeconds)
             == Commit(db')
    ensures var price := db.packages[packageId].price;
            var first := UnitCost(db.coupons, coupon, price);
            && SubsBought(db, db', userId, packageId, qty, coupon, env.now)
            && db'.subs[|db.subs|].unitPrice == first
            && CouponsAfter(db, db', coupon, price - first, env.now)
            && SpendEffect(db.users, db'.users, userId, first + (qty - 1) * price, env.bps, env.windowSeconds,
                           env.now, r)
  {
    hide InvUpTo, Purchasable, CouponsAfter, SpendEffect, Spent, Deliver, PlansUsable, WithinStack, TotalPrice,
         UnitCost, WithRows;
    PurchasableExactly(db, userId, packageId, qty, coupon, env.now, env.checkedAt);
    DeliverIsPurchase(db, userId, packageId, qty, coupon, env);
    DeliveredRows(db, userId, packageId, qty, coupon, env.now, env.checkedAt, env.bps, env.windowSeconds, db');
    var rows := WithRows(db, userId, packageId, qty, coupon, env.now);
    FirstCost(db, db.packages[packageId], coupon);
    RowsExactly(db, userId, packageId, qty, coupon, env.now, rows);
    SameSubs(db, rows, db', userId, packageId, qty, coupon, env.now);
    SameCoupons(db, rows, db', coupon, env.now);
    assert db'.subs[|db.subs|].unitPrice == UnitCost(db.coupons, coupon, db.packages[packageId].price);
    BuyRows(db, userId, packageId, qty, coupon, env, db');
    TotalExactly(db, packageId, qty, coupon);
    TotalNonnegative(db, userId, packageId, qty, coupon, env.now, env.checkedAt);
    hide SubsBought;
    r := SpentExactly(db, userId, TotalPrice(db, packageId, qty, coupon), env, env.now, db'.users);
  }

  lemma SameCoupons(db: DB, db1: DB, db2: DB, coupon: Option<nat>, now: int)
    requires db1.coupons == db2.coupons
    ensures forall saving: int ::
              CouponsAfter(db, db1, coupon, saving, now) == CouponsAfter(db, db2, coupon, saving, now)
  {
  }

  lemma DeliverIsPurchase(db: DB, userId: nat, packageId: nat, qty: nat, coupon: Option<nat>, env: Env)
    requires Purchasable(db, userId, packageId, qty, coupon, env.now, env.checkedAt)
    ensures userId < |db.users| && packageId < |db.packages|
    ensures Purchase(db, userId, packageId, qty, coupon, env.now, env.checkedAt, env.bps, env.windowSeconds)
            == Deliver(db, userId, packageId, qty, coupon, env.now, env.bps, env.windowSeconds)
  {
    hide Deliver, CouponRefusal, SnapshotBuilds, OverLimit;
  }

  // --- Grant ---------------------------------------------------------------------------------------------

  /** A grant goes through exactly when 1 to 100 units are meant for an ordinary enabled user, of an
      enabled package with a price, a valid period and usable plans, within the limit; being published,
      coupons and balances play no part. */
  ghost predicate MayGrant(db: DB, userId: nat, packageId: nat, qty: nat, checkedAt: int) {
    && 1 <= qty <= 100 && userId < |db.users| && db.users[userId].ordinary && db.users[userId].enabled
    && packageId < |db.packages|
    && var pkg := db.packages[packageId];
       && pkg.enabled && pkg.price >= 0 && 0 < pkg.period <= 158_112_000
       && PlansUsable(pkg, db.plans) && WithinStack(db, userId, packageId, qty, checkedAt)
  }

  lemma GrantableExactly(db: DB, userId: nat, packageId: nat, qty: nat, checkedAt: int)
    ensures GrantRefusal(db, userId, packageId, qty, checkedAt) == None
            <==> MayGrant(db, userId, packageId, qty, checkedAt)
  {
    hide SnapshotBuilds, PlansUsable, OverLimit, WithinStack;
    if 1 <= qty && packageId < |db.packages| {
      SnapshotExactly(db.packages[packageId], db.plans);
      FitsLimit(db, userId, packageId, qty, checkedAt);
    }
  }

  /** Over every run, for a grant admitted on a copy of the package read earlier: it commits exactly when
      it still may, moves no quota, and adds free subscriptions with the fresh price and plans, running
      for the seconds given or, where none are, for the copy's period. */
  lemma GrantExactly(linkIndex: bool, steps: seq<Step>, userId: nat, packageId: nat, copy: Package, qty: nat,
                     valid: Option<int>, env: Env)
    ensures var db := Run(linkIndex, steps).db;
            match Transact(db, SubGrant(userId, packageId, copy, qty, valid), env)
            case Abort(_) => !MayGrant(db, userId, packageId, qty, env.checkedAt)
            case Commit(db') =>
              && MayGrant(db, userId, packageId, qty, env.checkedAt) && db'.users == db.users
              && db'.coupons == db.coupons
              && |db'.subs| == |db.subs| + qty && db.subs <= db'.subs
              && var pkg := db.packages[packageId];
                 var seconds := if valid.Some? then valid.value else copy.period;
                 forall i :: |db.subs| <= i < |db'.subs| ==>
                   db'.subs[i] == Sub(userId, packageId, env.now, env.now + seconds * 1_000_000, None,
                                      db'.subs[i].stackIndex, Active, true, 0, pkg.price, pkg.planIds, None)
  {
    hide InvUpTo, Run, Grant, GrantRefusal, MayGrant;
    var db := Run(linkIndex, steps).db;
    Reachable(linkIndex, steps);
    var seconds := GrantSeconds(copy, valid);
    GrantableExactly(db, userId, packageId, qty, env.checkedAt);
    GrantKeeps(db, userId, packageId, qty, seconds, env.now, env.checkedAt);
    if Grant(db, userId, packageId, qty, seconds, env.now, env.checkedAt).Commit? {
      GrantLeavesCoupons(db, userId, packageId, qty, seconds, env.now, env.checkedAt);
    }
  }

  lemma {:induction false} UnitsLeaveCoupons(db: DB, userId: nat, kind: Kind, amounts: seq<int>, firstSub: nat, at: int)
    ensures var out := PostUnits(db, userId, kind, amounts, firstSub, at); out.Commit? ==> out.db.coupons == db.coupons
    decreases |amounts|
  {
    if amounts != [] {
      var posted := Post(db, userId, amounts[0], kind, SubLink(firstSub), at);
      if posted.Commit? {
        UnitsLeaveCoupons(posted.db, userId, kind, amounts[1..], firstSub + 1, at + 1);
      }
    }
  }

  lemma GrantLeavesCoupons(db: DB, userId: nat, packageId: nat, qty: nat, seconds: int, now: int, checkedAt: int)
    ensures Grant(db, userId, packageId, qty, seconds, now, checkedAt).After(db).coupons == db.coupons
  {
    hide PostUnits, GrantedSubs;
    if Grant(db, userId, packageId, qty, seconds, now, checkedAt).Commit? {
      UnitsLeaveCoupons(db.(subs := db.subs + GrantedSubs(db, userId, packageId, qty, seconds, now)), userId,
                        AdminGrantSub, Zeros(qty), |db.subs|, now);
    }
  }

  // --- Coupons --------------------------------------------------------------------------------------------

  /** A coupon can be withdrawn exactly while it is available and not expired. */
  lemma WithdrawExactly(db: DB, id: nat, now: int)
    ensures match RevokeCoupon(db, id, now)
            case Abort(_) =>
              id < |db.coupons| && db.coupons[id].status == Available && db.coupons[id].expiresAt.Some? ==>
                db.coupons[id].expiresAt.value <= now
            case Commit(db') =>
              && id < |db.coupons| && db.coupons[id].status == Available
              && (db.coupons[id].expiresAt.Some? ==> now < db.coupons[id].expiresAt.value)
              && db' == db.(coupons := db.coupons[id := db.coupons[id].(status := CouponRevoked)])
    ensures id < |db.coupons| && db.coupons[id].status == Available && db.coupons[id].expiresAt.None? ==>
              RevokeCoupon(db, id, now).Commit?
  {
  }

  lemma {:induction false} BatchTerms(userIds: seq<nat>, template: CouponTemplate, qty: nat, expiresAt: Option<int>,
                                      i: nat)
    requires i < |CouponBatch(userIds, template, qty, expiresAt)|
    ensures var c := CouponBatch(userIds, template, qty, expiresAt)[i];
            c == Coupon(c.userId, Available, template.fixedPrice, template.value, template.packages, expiresAt, None,
                        None, 0)
  {
    var last := |userIds| - 1;
    var front := CouponBatch(userIds[..last], template, qty, expiresAt);
    if i < |front| {
      BatchTerms(userIds[..last], template, qty, expiresAt, i);
    }
  }

  /** Every coupon of a batch carries the template's terms, available and unused; earlier coupons and
      every other table stay as they are. */
  lemma BatchExactly(db: DB, userIds: seq<nat>, template: CouponTemplate, qty: nat, expiresAt: Option<int>, db': DB)
    requires GrantCoupons(db, userIds, template, qty, expiresAt) == Commit(db')
    ensures db.coupons <= db'.coupons && db' == db.(coupons := db'.coupons)
    ensures forall i :: |db.coupons| <= i < |db'.coupons| ==>
              db'.coupons[i] == Coupon(db'.coupons[i].userId, Available, template.fixedPrice, template.value,
                                       template.packages, expiresAt, None, None, 0)
  {
    forall i | |db.coupons| <= i < |db'.coupons|
      ensures db'.coupons[i] == Coupon(db'.coupons[i].userId, Available, template.fixedPrice, template.value,
                                       template.packages, expiresAt, None, None, 0)
    {
      BatchTerms(userIds, template, qty, expiresAt, i - |db.coupons|);
    }
  }

  // --- Ending a subscription --------------------------------------------------------------------------------

  /** Only an active subscription can be canceled by its user, and it is stamped now. */
  lemma CancelExactly(db: DB, id: nat, now: int)
    ensures match Cancel(db, id, now)
            case Abort(_) => id < |db.subs| ==> db.subs[id].status != Active
            case Commit(db') =>
              && id < |db.subs| && db.subs[id].status == Active
              && db' == db.(subs := db.subs[id := db.subs[id].(status := Canceled, canceledAt := Some(now))])
  {
  }

  /** An active subscription can expire or be paused, a paused one be resumed; nothing else changes. */
  lemma StatusWritesExactly(db: DB, id: nat, paused: bool)
    ensures Expire(db, id) == if id < |db.subs| && db.subs[id].status == Active
                              then Commit(db.(subs := db.subs[id := db.subs[id].(status := Expired)]))
                              else Abort(SubStateMiss)
    ensures SetPaused(db, id, paused)
            == if id < |db.subs| && paused && db.subs[id].status == Active then
                 Commit(db.(subs := db.subs[id := db.subs[id].(status := Paused)]))
               else if id < |db.subs| && !paused && db.subs[id].status == Paused then
                 Commit(db.(subs := db.subs[id := db.subs[id].(status := Active)]))
               else Abort(SubStateMiss)
  {
  }

  /** A refund of a subscription commits exactly while it is active, canceled, expired or paused, was not
      granted, and its owner's row exists; the cancellation time of a canceled one is kept. */
  lemma SubRefundExactly(db: DB, id: nat, copy: Sub, amount: int, now: int)
    requires Inv(db) && SubCopy(db, id, copy) && RefundAdmissible(copy, amount)
    ensures match RefundSubscription(db, id, copy.userId, amount, now)
            case Abort(_) => db.subs[id].status in {SubRefunded, Revoked}
            case Commit(db') =>
              && db.subs[id].status in {Active, Canceled, Expired, Paused}
              && |db'.subs| == |db.subs|
              && db'.subs == db.subs[id := db.subs[id].(
                                       status := SubRefunded,
                                       canceledAt := if db.subs[id].canceledAt.Some? then db.subs[id].canceledAt
                                                     else Some(now))]
              && db' == db.(subs := db'.subs, users := db'.users, entries := db'.entries)
  {
    hide InvUpTo;
    SubRefundKeeps(db, id, copy, amount, now);
  }

  /** A revocation commits exactly for a granted subscription that is active or paused. */
  lemma RevokeExactly(db: DB, id: nat, owner: nat, now: int)
    requires Inv(db) && owner < |db.users| && id < |db.subs|
    ensures match RevokeGrant(db, id, owner, now)
            case Abort(why) =>
              && (db.subs[id].granted ==> db.subs[id].status !in {Active, Paused})
              && why == if db.subs[id].granted then RevokeBadStatus else RevokeNotGranted
            case Commit(db') =>
              && db.subs[id].granted && db.subs[id].status in {Active, Paused}
              && db'.subs == db.subs[id := db.subs[id].(
                                       status := Revoked,
                                       canceledAt := if db.subs[id].canceledAt.Some? then db.subs[id].canceledAt
                                                     else Some(now))]
              && db' == db.(subs := db'.subs, users := db'.users, entries := db'.entries)
  {
    hide InvUpTo;
    RevokeKeeps(db, id, owner, now);
  }

  // --- The reads before the transactions ---------------------------------------------------------

  /** Which current rows a cancellation, a refund, a revocation and a grant are begun on: a refund is in
      (0, price] of a subscription that was paid for; a grant is for an ordinary enabled user and an
      enabled package with a valid period. */
  lemma BeginsExactly(s: Sys, slot: nat, id: nat, copy: Sub, amount: int, userId: nat, pkg: Package, qty: nat,
                      valid: Option<int>)
    requires slot !in s.slots
    ensures slot in Apply(s, Begin(slot, SubCancel(id))).slots <==> id < |s.db.subs| && s.db.subs[id].status == Active
    ensures slot in Apply(s, Begin(slot, SubRefund(id, copy, amount))).slots
            <==> id < |s.db.subs| && copy == s.db.subs[id] && !copy.granted && 0 < amount <= copy.unitPrice
    ensures slot in Apply(s, Begin(slot, GrantRevoke(id, copy))).slots
            <==> id < |s.db.subs| && copy == s.db.subs[id] && copy.granted && copy.status in {Active, Paused}
    ensures slot in Apply(s, Begin(slot, SubGrant(userId, id, pkg, qty, valid))).slots
            <==> && userId < |s.db.users| && s.db.users[userId].ordinary && s.db.users[userId].enabled
                 && id < |s.db.packages| && pkg == s.db.packages[id] && pkg.enabled
                 && 0 < pkg.period <= 158_112_000
  {
    hide Perform, Transact, ReceiveHook, Lookup;
  }
}
