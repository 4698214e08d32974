/** Subscriptions and coupons: purchase, grant, cancel, refund, revoke and expiry. */
module Subscriptions {
  import opened Options
  import opened Money
  import opened Model
  import opened Ledger
  import opened Rewards

  // --- Package checks ---------------------------------------------------------------

  function EffectiveMax(pkg: Package): int {
    if pkg.stackable then pkg.maxActive else 1
  }

  predicate PlanUsable(plans: seq<Plan>, id: nat) {
    && id < |plans|
    && plans[id].enabled
    && !(plans[id].costMetered && plans[id].limitPositive && plans[id].limitMicro <= 0)
  }

  /** buildPackageSnapshotTx fails closed unless every bound plan is usable. */
  predicate SnapshotBuilds(pkg: Package, plans: seq<Plan>) {
    forall i :: 0 <= i < |pkg.planIds| ==> PlanUsable(plans, pkg.planIds[i])
  }

  predicate PeriodValid(pkg: Package) {
    0 < pkg.period <= MAX_BILLING_PERIOD_SECONDS
  }

  predicate ActiveAt(s: Sub, userId: nat, packageId: nat, t: int) {
    s.userId == userId && s.packageId == packageId && s.status == Active && s.endAt > t
  }

  /** Unexpired active subscriptions of one user for one package. */
  function ActiveCount(subs: seq<Sub>, userId: nat, packageId: nat, t: int): nat {
    if subs == [] then 0
    else
      ActiveCount(subs[..|subs| - 1], userId, packageId, t)
      + (if ActiveAt(subs[|subs| - 1], userId, packageId, t) then 1 else 0)
  }

  predicate OverLimit(db: DB, userId: nat, packageId: nat, pkg: Package, qty: nat, t: int) {
    EffectiveMax(pkg) > 0 && ActiveCount(db.subs, userId, packageId, t) + qty > EffectiveMax(pkg)
  }

  /** SELECT MAX(stack_index) for one user and one package. */
  function MaxIndex(subs: seq<Sub>, userId: nat, packageId: nat): Option<int> {
    if subs == [] then None
    else
      var rest := MaxIndex(subs[..|subs| - 1], userId, packageId);
      var s := subs[|subs| - 1];
      if s.userId != userId || s.packageId != packageId then rest
      else if rest.None? || s.stackIndex > rest.value then Some(s.stackIndex)
      else rest
  }

  function NextIndex(subs: seq<Sub>, userId: nat, packageId: nat): int {
    match MaxIndex(subs, userId, packageId)
    case None => 1
    case Some(m) => m + 1
  }

  // --- Coupons --------------------------------------------------------------------------

  /** couponPackageEffectiveLowerBoundMicroUSD: an unset floor falls back to the price. */
  function LowerBound(pkg: Package): int {
    if pkg.costFloor > 0 then pkg.costFloor else pkg.price
  }

  function EffectivePrice(c: Coupon, basePrice: int): int {
    if !c.fixedPrice || c.value > basePrice then basePrice
    else if c.value < 0 then 0
    else c.value
  }

  predicate CouponLive(c: Coupon, now: int) {
    c.status == Available && (c.expiresAt.None? || c.expiresAt.value > now)
  }

  predicate Covers(c: Coupon, packageId: nat) {
    c.packages.Some? && (c.packages.value == [] || packageId in c.packages.value)
  }

  /** Why lockAndApplyCoupon refuses this coupon row, or None if it marks it used. */
  function CouponRefusal(c: Coupon, userId: nat, packageId: nat, pkg: Package, now: int): Option<Failure> {
    if c.userId != userId then Some(CouponInvalid)
    else if c.status != Available || (c.expiresAt.Some? && now > c.expiresAt.value) then Some(CouponInvalid)
    else if c.packages.None? then Some(CouponInvalid)
    else if !Covers(c, packageId) then Some(CouponNotApplicable)
    else if c.fixedPrice && c.value <= 0 then Some(CouponInvalid)
    else if c.fixedPrice && LowerBound(pkg) > 0 && c.value < LowerBound(pkg) then Some(CouponBelowCostFloor)
    else if !CouponLive(c, now) then Some(CouponInvalid)
    else None
  }

  function RevokeCoupon(db: DB, id: nat, now: int): Outcome {
    if id >= |db.coupons| || !CouponLive(db.coupons[id], now) then Abort(CouponNotRevokable)
    else Commit(db.(coupons := db.coupons[id := db.coupons[id].(status := CouponRevoked)]))
  }

  /** qty coupons for each listed user, or nothing at all. */
  function CouponBatch(userIds: seq<nat>, template: CouponTemplate, qty: nat, expiresAt: Option<int>): seq<Coupon> {
    if userIds == [] then []
    else
      CouponBatch(userIds[..|userIds| - 1], template, qty, expiresAt)
      + seq(qty, _ => FromTemplate(userIds[|userIds| - 1], template, expiresAt))
  }

  /** Users are re-read one after the other; the first bad one decides. */
  function BatchRefusal(users: seq<User>, userIds: seq<nat>): Option<Failure> {
    if userIds == [] then None
    else if userIds[0] >= |users| then Some(UserMissing)
    else if !users[userIds[0]].enabled then Some(TargetUserChanged)
    else BatchRefusal(users, userIds[1..])
  }

  function GrantCoupons(db: DB, userIds: seq<nat>, template: CouponTemplate, qty: nat,
                        expiresAt: Option<int>): Outcome
  {
    if !template.enabled then Abort(TemplateChanged)
    else
      match BatchRefusal(db.users, userIds)
      case Some(why) => Abort(why)
      case None => Commit(db.(coupons := db.coupons + CouponBatch(userIds, template, qty, expiresAt)))
  }

  // --- Purchase ----------------------------------------------------------------------------

  function Prices(first: int, listPrice: int, qty: nat): seq<int> {
    seq(qty, i => if i == 0 then first else listPrice)
  }

  function NewSubs(userId: nat, packageId: nat, pkg: Package, prices: seq<int>, granted: bool,
                   baseIndex: int, coupon: Option<nat>, now: int, endAt: int): seq<Sub>
  {
    seq(|prices|, i requires 0 <= i < |prices| =>
      Sub(userId, packageId, now, endAt, None, baseIndex + i, Active, granted, prices[i], pkg.price,
          pkg.planIds, if i == 0 then coupon else None))
  }

  /** One ledger movement per unit, in order, linked to consecutive subscriptions. */
  function PostUnits(db: DB, userId: nat, kind: Kind, amounts: seq<int>, firstSub: nat, at: int): Outcome
    decreases |amounts|
  {
    if amounts == [] then Commit(db)
    else
      var db1 :- Post(db, userId, amounts[0], kind, SubLink(firstSub), at);
      PostUnits(db1, userId, kind, amounts[1..], firstSub + 1, at + 1)
  }

  function Negated(xs: seq<int>): seq<int> {
    seq(|xs|, i requires 0 <= i < |xs| => -xs[i])
  }

  /** The checks made on the package row read inside the purchase transaction. */
  function PurchaseRefusal(db: DB, userId: nat, packageId: nat, qty: nat, checkedAt: int): Option<Failure> {
    if qty < 1 || qty > 100 then Some(QuantityInvalid)
    else if userId >= |db.users| then Some(UserMissing)
    else if packageId >= |db.packages| then Some(PackageGone)
    else
      var pkg := db.packages[packageId];
      if !pkg.enabled then Some(PackageDisabled)
      else if !pkg.published then Some(PackageNotPublic)
      else if pkg.price < 0 then Some(PackageInvalidNumeric)
      else if !PeriodValid(pkg) then Some(PackagePeriodInvalid)
      else if !SnapshotBuilds(pkg, db.plans) then Some(SnapshotInvalid)
      else if OverLimit(db, userId, packageId, pkg, qty, checkedAt) then Some(StackLimit)
      else None
  }

  /** The price of the first unit, or why the coupon is refused. */
  function CouponCheck(db: DB, userId: nat, packageId: nat, pkg: Package, couponId: Option<nat>, now: int):
    Option<Failure>
  {
    if couponId.None? then None
    else if couponId.value >= |db.coupons| then Some(CouponInvalid)
    else CouponRefusal(db.coupons[couponId.value], userId, packageId, pkg, now)
  }

  function FirstPrice(db: DB, pkg: Package, couponId: Option<nat>): int {
    if couponId.None? || couponId.value >= |db.coupons| then pkg.price
    else EffectivePrice(db.coupons[couponId.value], pkg.price)
  }

  /** Mark the coupon used and link it to the first subscription. */
  function UseCoupon(db: DB, couponId: Option<nat>, subId: nat, saving: int, now: int): DB {
    if couponId.None? || couponId.value >= |db.coupons| then db
    else
      var c := db.coupons[couponId.value];
      db.(coupons := db.coupons[couponId.value :=
            c.(status := Used, usedAt := Some(now), usedOn := Some(subId), saving := saving)])
  }

  function TotalPrice(db: DB, packageId: nat, qty: nat, couponId: Option<nat>): int
    requires packageId < |db.packages|
  {
    FirstPrice(db, db.packages[packageId], couponId) + db.packages[packageId].price * (qty - 1)
  }

  function BoughtSubs(db: DB, userId: nat, packageId: nat, qty: nat, couponId: Option<nat>, now: int): seq<Sub>
    requires packageId < |db.packages|
  {
    var pkg := db.packages[packageId];
    NewSubs(userId, packageId, pkg, Prices(FirstPrice(db, pkg, couponId), pkg.price, qty), false,
            NextIndex(db.subs, userId, packageId), couponId, now, now + pkg.period * 1_000_000)
  }

  /** The state between creating the rows and writing the entries. */
  function WithRows(db: DB, userId: nat, packageId: nat, qty: nat, couponId: Option<nat>, now: int): DB
    requires packageId < |db.packages|
  {
    var pkg := db.packages[packageId];
    UseCoupon(db, couponId, |db.subs|, pkg.price - FirstPrice(db, pkg, couponId), now)
      .(subs := db.subs + BoughtSubs(db, userId, packageId, qty, couponId, now))
  }

  function BoughtAmounts(db: DB, packageId: nat, qty: nat, couponId: Option<nat>): seq<int>
    requires packageId < |db.packages|
  {
    var pkg := db.packages[packageId];
    Negated(Prices(FirstPrice(db, pkg, couponId), pkg.price, qty))
  }

  /** The committed effect of purchaseAsInstant once every check has passed. */
  function Deliver(db: DB, userId: nat, packageId: nat, qty: nat, couponId: Option<nat>, now: int,
                   bps: int, windowSeconds: int): Outcome
    requires packageId < |db.packages|
  {
    var db2 :- PostUnits(WithRows(db, userId, packageId, qty, couponId, now), userId, PurchaseSub,
                         BoughtAmounts(db, packageId, qty, couponId), |db.subs|, now);
    SpendReward(db2, userId, TotalPrice(db, packageId, qty, couponId), bps, windowSeconds, now, SubLink(|db.subs|))
  }

  /** The coupon, the sum and the balance of a purchase whose package checks passed. */
  function Checkout(db: DB, userId: nat, packageId: nat, qty: nat, couponId: Option<nat>, now: int, bps: int,
                    windowSeconds: int): Outcome
    requires userId < |db.users| && packageId < |db.packages|
  {
    match CouponCheck(db, userId, packageId, db.packages[packageId], couponId, now)
    case Some(why) => Abort(why)
    case None =>
      var total := TotalPrice(db, packageId, qty, couponId);
      if total > MAX_INT64 then Abort(PriceOverflow)
      else if db.users[userId].quota < total && total > 0 then Abort(InsufficientBalance)
      else Deliver(db, userId, packageId, qty, couponId, now, bps, windowSeconds)
  }

  function Purchase(db: DB, userId: nat, packageId: nat, qty: nat, couponId: Option<nat>,
                    now: int, checkedAt: int, bps: int, windowSeconds: int): Outcome
  {
    match PurchaseRefusal(db, userId, packageId, qty, checkedAt)
    case Some(why) => Abort(why)
    case None => Checkout(db, userId, packageId, qty, couponId, now, bps, windowSeconds)
  }

  // --- Grant ---------------------------------------------------------------------------------

  /** Validity is taken from the package copy read before the transaction. */
  function GrantSeconds(stale: Package, validSeconds: Option<int>): int {
    match validSeconds
    case None => stale.period
    case Some(v) => v
  }

  function GrantRefusal(db: DB, userId: nat, packageId: nat, qty: nat, checkedAt: int): Option<Failure> {
    if qty < 1 || qty > 100 then Some(QuantityInvalid)
    else if userId >= |db.users| then Some(UserMissing)
    else if !db.users[userId].ordinary || !db.users[userId].enabled then Some(TargetUserChanged)
    else if packageId >= |db.packages| then Some(PackageGone)
    else
      var pkg := db.packages[packageId];
      if !pkg.enabled || pkg.price < 0 then Some(PackageChanged)
      else if !PeriodValid(pkg) then Some(PackagePeriodInvalid)
      else if !SnapshotBuilds(pkg, db.plans) then Some(SnapshotInvalid)
      else if OverLimit(db, userId, packageId, pkg, qty, checkedAt) then Some(StackLimit)
      else None
  }

  function Zeros(qty: nat): seq<int> {
    seq(qty, _ => 0)
  }

  function GrantedSubs(db: DB, userId: nat, packageId: nat, qty: nat, seconds: int, now: int): seq<Sub>
    requires packageId < |db.packages|
  {
    NewSubs(userId, packageId, db.packages[packageId], Zeros(qty), true, NextIndex(db.subs, userId, packageId),
            None, now, now + seconds * 1_000_000)
  }

  function Grant(db: DB, userId: nat, packageId: nat, qty: nat, seconds: int, now: int, checkedAt: int): Outcome {
    match GrantRefusal(db, userId, packageId, qty, checkedAt)
    case Some(why) => Abort(why)
    case None =>
      PostUnits(db.(subs := db.subs + GrantedSubs(db, userId, packageId, qty, seconds, now)), userId, AdminGrantSub,
                Zeros(qty), |db.subs|, now)
  }

  // --- Ending a subscription --------------------------------------------------------------------

  function Stamp(canceledAt: Option<int>, now: int): Option<int> {
    if canceledAt.None? then Some(now) else canceledAt
  }

  function SetSub(db: DB, id: nat, s: Sub): DB
    requires id < |db.subs|
  {
    db.(subs := db.subs[id := s])
  }

  function Cancel(db: DB, id: nat, now: int): Outcome {
    if id >= |db.subs| || db.subs[id].status != Active then Abort(SubStateMiss)
    else Commit(SetSub(db, id, db.subs[id].(status := Canceled, canceledAt := Some(now))))
  }

  function Expire(db: DB, id: nat): Outcome {
    if id >= |db.subs| || db.subs[id].status != Active then Abort(SubStateMiss)
    else Commit(SetSub(db, id, db.subs[id].(status := Expired)))
  }

  /** Pausing and resuming is done outside the modelled handlers. */
  function SetPaused(db: DB, id: nat, paused: bool): Outcome {
    if id >= |db.subs| || db.subs[id].status != (if paused then Active else Paused) then Abort(SubStateMiss)
    else Commit(SetSub(db, id, db.subs[id].(status := if paused then Paused else Active)))
  }

  /** What AdminRefundSubscription checks on the copy read before its transaction. */
  predicate RefundAdmissible(stale: Sub, amount: int) {
    amount > 0 && !stale.granted && stale.unitPrice > 0 && amount <= stale.unitPrice
  }

  predicate RefundableStatus(status: SubStatus) {
    status == Active || status == Canceled || status == Expired || status == Paused
  }

  function RefundSubscription(db: DB, id: nat, owner: nat, amount: int, now: int): Outcome {
    if owner >= |db.users| then Abort(UserMissing)
    else if Count(db.entries, RefundSub, SubRefundLink(id)) + Count(db.entries, RefundSub, SubLink(id)) > 0 then
      Abort(SubRefundDuplicate)
    else if id >= |db.subs| || db.subs[id].granted || !RefundableStatus(db.subs[id].status) then Abort(SubStateMiss)
    else
      var s := db.subs[id];
      Post(SetSub(db, id, s.(status := SubRefunded, canceledAt := Stamp(s.canceledAt, now))),
           owner, amount, RefundSub, SubRefundLink(id), now)
  }

  predicate RevocableStatus(status: SubStatus) {
    status == Active || status == Paused
  }

  function RevokeGrant(db: DB, id: nat, owner: nat, now: int): Outcome {
    if owner >= |db.users| then Abort(UserMissing)
    else if id >= |db.subs| then Abort(RowMissing)
    else
      var s := db.subs[id];
      if !s.granted then Abort(RevokeNotGranted)
      else if !RevocableStatus(s.status) then Abort(RevokeBadStatus)
      else
        Post(SetSub(db, id, s.(status := Revoked, canceledAt := Stamp(s.canceledAt, now))),
             s.userId, 0, AdminRevokeGrant, SubLink(id), now)
  }
}
