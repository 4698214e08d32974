/** The money tables as values. A row's id is its position in its table, except that
    coupons, packages and users referred to optionally use Option instead of id 0. */
module Model {
  import opened Options

  const MANUAL_PROVIDER := "manual_paid"
  const MAX_BILLING_PERIOD_SECONDS: int := 5 * 366 * 86400
  const MAX_SINGLE_RECONCILE_MICRO: int := 100 * 1_000_000
  const BASIS_POINTS: int := 10_000

  datatype User = User(
    quota: int,
    paidQuota: int,
    referredBy: Option<nat>,
    referredAt: Option<int>,
    ordinary: bool,   // role == "user"
    enabled: bool)    // status == 1

  datatype OrderStatus = Created | Paid | Failed | Refunded | OrderCanceled

  datatype Order = Order(
    userId: nat,
    provider: string,
    moneyFen: int,
    amountMicro: int,
    rateMicros: int,
    status: OrderStatus,
    refundedFen: int,
    tradeNo: string,
    refundNo: string,
    paidAt: Option<int>,
    createdAt: int)

  datatype ReceiptKey = ReceiptKey(provider: string, nonce: string)

  datatype Refund = Refund(
    orderId: nat,
    externalRef: string,
    amountFen: int,
    amountMicro: int,
    reclaim: bool)

  datatype Plan = Plan(enabled: bool, costMetered: bool, limitPositive: bool, limitMicro: int)

  datatype Package = Package(
    price: int,
    costFloor: int,
    period: int,
    stackable: bool,
    maxActive: int,
    published: bool,
    enabled: bool,
    planIds: seq<nat>)

  datatype SubStatus = Active | Expired | Paused | Canceled | SubRefunded | Revoked

  datatype Sub = Sub(
    userId: nat,
    packageId: nat,
    startAt: int,
    endAt: int,
    canceledAt: Option<int>,
    stackIndex: int,
    status: SubStatus,
    granted: bool,
    unitPrice: int,             // PurchasedUnitPriceUSD
    listPrice: int,             // price_amount inside the snapshot
    planIds: seq<nat>,          // plan ids inside the snapshot
    coupon: Option<nat>)        // AppliedCouponID

  datatype CouponStatus = Available | Used | CouponRevoked

  datatype Coupon = Coupon(
    userId: nat,
    status: CouponStatus,
    fixedPrice: bool,                   // snapshot_type == "fixed_price"
    value: int,
    packages: Option<seq<nat>>,         // None: the snapshot list is corrupt
    expiresAt: Option<int>,
    usedAt: Option<int>,
    usedOn: Option<nat>,
    saving: int)

  /** The fields of a coupon template that a granted coupon copies. */
  datatype CouponTemplate = CouponTemplate(
    enabled: bool,
    fixedPrice: bool,
    value: int,
    packages: Option<seq<nat>>)

  datatype Kind =
    | Topup | PurchaseSub | BonusCredit | RefundSub | RefundTopup | AdminAdjust
    | AdminGrantSub | AdminRevokeGrant | ApiConsumeBalance | ApiUsageSub | ApiUsagePending

  datatype BillingState = Settled | PendingReconcile | UpstreamUnmetered

  /** related_type and related_id together; NoLink is related_id == 0. */
  datatype Link =
    | NoLink
    | OrderLink(id: nat)
    | SubLink(id: nat)
    | SubRefundLink(id: nat)
    | UserLink(id: nat)
    | EntryLink(id: nat)
    | ResetLink(id: nat)
    | ApiLogLink(id: nat)

  datatype Entry = Entry(
    userId: nat,
    kind: Kind,
    state: BillingState,
    amount: int,
    balanceAfter: int,
    link: Link,
    estimatedCost: int,
    occurredAt: int)

  datatype ReconcileResult = Absorbed | Charged | Voided

  datatype Reconciliation = Reconciliation(entryId: nat, result: ReconcileResult, adjustment: Option<nat>)

  datatype UsageKey = UsageKey(userId: nat, planId: nat, bucket: string)

  datatype Usage = Usage(
    windowStart: int,
    windowEnd: int,
    consumed: real,
    consumedMicro: int,
    requests: int,
    updatedAt: int)

  /** One committed database state. linkIndex says whether the partial unique index on
      (related_type, related_id, entry_type) is installed. */
  datatype DB = DB(
    users: seq<User>,
    orders: seq<Order>,
    receipts: set<ReceiptKey>,
    refunds: seq<Refund>,
    packages: seq<Package>,
    plans: seq<Plan>,
    subs: seq<Sub>,
    coupons: seq<Coupon>,
    entries: seq<Entry>,
    recons: seq<Reconciliation>,
    usage: map<UsageKey, Usage>,
    linkIndex: bool)

  datatype Failure =
    | UserMissing | RowMissing
    | TopupDuplicate | AdminMarkRaced | ManualRefDuplicate
    | RefundRefDuplicate | ReclaimBlocked | RefundAmountInvalid | AmountInvalid
    | BillingInvalid | BillingLinkDuplicate
    | PackageGone | PackageDisabled | PackageNotPublic | PackageInvalidNumeric
    | PackagePeriodInvalid | PackageChanged | SnapshotInvalid
    | StackLimit | PriceOverflow | InsufficientBalance
    | CouponInvalid | CouponNotApplicable | CouponBelowCostFloor | CouponNotRevokable
    | TargetUserChanged | SubRefundDuplicate | SubStateMiss | RevokeNotGranted | RevokeBadStatus
    | ReconcileNotPending | ReconcileAlreadyDone | ReconcileNoCost | ReconcileOverCap
    | TemplateChanged | QuantityInvalid | ResetScopeTooLarge | NotEligible

  /** What a transaction does: commit a new state, or roll back with a reason. */
  datatype Outcome = Commit(db: DB) | Abort(why: Failure) {
    predicate IsFailure() { Abort? }
    function PropagateFailure(): Outcome
      requires Abort?
    {
      this
    }
    function Extract(): DB
      requires Commit?
    {
      db
    }

    /** The state after the transaction, given the state before it. */
    function After(before: DB): DB {
      if Commit? then db else before
    }
  }

  const EMPTY_DB := DB([], [], {}, [], [], [], [], [], [], [], map[], false)
}
