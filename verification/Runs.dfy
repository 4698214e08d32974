/** Runs of the whole money subsystem: handlers interleave freely, and a handler that reads
    before its transaction keeps the copy it read in a slot of its own meanwhile. */
module Runs {
  import opened Options
  import opened Model
  import opened Ledger
  import opened Topups
  import opened Rewards
  import opened Subscriptions
  import opened Charges
  import opened UsageReset
  import opened Invariants
  import opened TopupProofs
  import opened RewardProofs
  import opened PurchaseProofs
  import opened SubscriptionProofs
  import opened ChargeProofs
  import opened Evolution

  // --- Steps --------------------------------------------------------------------------------

  /** What a handler remembers between its read and its transaction. */
  datatype Work =
    | HookPaid(provider: string, event: Event)
    | HookAdmitted(provider: string, event: Event, copy: Order)
    | ManualPaid(orderId: nat, copy: Order, externalRef: string)
    | TopupRefund(orderId: nat, copy: Order, requestedFen: nat, reclaim: bool, refundRef: string)
    | SubCancel(subId: nat)
    | SubRefund(subId: nat, subCopy: Sub, amount: int)
    | GrantRevoke(subId: nat, subCopy: Sub)
    | EntryReconcile(entryId: nat, entryCopy: Entry, result: ReconcileResult)
    | SubGrant(userId: nat, packageId: nat, pkgCopy: Package, qty: nat, validSeconds: Option<int>)

  /** Handlers that are one transaction, and writes made outside the modelled handlers. */
  datatype Action =
    | NewOrder(userId: nat, provider: string, fen: int, rateMicros: int)
    | GatewayFailed(orderId: nat)
    | GatewayReplied(orderId: nat, tradeNo: string)
    | LapseStaleOrders(ttlMinutes: Option<int>)
    | Buy(userId: nat, packageId: nat, qty: nat, couponId: Option<nat>)
    | ExpireSub(subId: nat)
    | PauseSub(subId: nat, paused: bool)
    | WithdrawCoupon(revokedCoupon: nat)
    | IssueCoupons(userIds: seq<nat>, template: CouponTemplate, qty: nat, expiresAt: Option<int>)
    | SignUp(ordinary: bool, signupBonus: nat, welcome: Option<CouponTemplate>, expiresAt: Option<int>)
    | Refer(newUser: nat, referrer: nat, referrerBonus: nat, refereeBonus: nat)
    | Consume(userId: nat, cost: nat, logId: Option<nat>)
    | LeavePending(userId: nat, unmetered: bool, estimate: int, cachedBalance: int, logId: Option<nat>)
    | ResetCounters(scope: ResetScope)
    | EditCatalog(packages: seq<Package>, plans: seq<Plan>)
    | Meter(usage: map<UsageKey, Usage>)
    | EditUser(userId: nat, ordinary: bool, enabled: bool)

  /** The clock readings and settings a transaction sees. */
  datatype Env = Env(now: int, checkedAt: int, bps: int, windowSeconds: int)

  datatype Step =
    | Receive(slot: nat, provider: string, event: Event)
    | Begin(slot: nat, work: Work)
    | Finish(slot: nat, env: Env)
    | Abandon(slot: nat)
    | Do(action: Action, env: Env)

  datatype Sys = Sys(db: DB, slots: map<nat, Work>)

  // --- Behaviour -------------------------------------------------------------------------------

  /** The read before the transaction: the copy is the current row and passes the handler's checks. */
  predicate Readable(db: DB, work: Work) {
    match work
    case HookPaid(_, _) => false
    case HookAdmitted(_, _, _) => false
    case ManualPaid(id, copy, _) => id < |db.orders| && copy == db.orders[id] && copy.status == Created
    case TopupRefund(id, copy, _, _, _) => id < |db.orders| && copy == db.orders[id] && copy.status == Paid
    case SubCancel(id) => id < |db.subs| && db.subs[id].status == Active
    case SubRefund(id, copy, amount) => id < |db.subs| && copy == db.subs[id] && RefundAdmissible(copy, amount)
    case GrantRevoke(id, copy) => id < |db.subs| && copy == db.subs[id] && copy.granted && RevocableStatus(copy.status)
    case EntryReconcile(id, copy, _) => id < |db.entries| && copy == db.entries[id] && Open(copy)
    case SubGrant(userId, packageId, copy, _, _) =>
      && userId < |db.users| && db.users[userId].ordinary && db.users[userId].enabled
      && packageId < |db.packages| && copy == db.packages[packageId] && copy.enabled && PeriodValid(copy)
  }

  /** The transaction, run on whatever the database has become since the read. */
  function Transact(db: DB, work: Work, env: Env): Outcome {
    match work
    case HookPaid(_, _) => Commit(db)
    case HookAdmitted(_, event, copy) => FinalizePaid(db, event, copy, env.now)
    case ManualPaid(id, copy, ref) => MarkPaid(db, id, copy.userId, ref, env.now)
    case TopupRefund(id, copy, fen, reclaim, ref) => RefundOrder(db, id, copy.userId, fen, reclaim, ref, env.now)
    case SubCancel(id) => Cancel(db, id, env.now)
    case SubRefund(id, copy, amount) => RefundSubscription(db, id, copy.userId, amount, env.now)
    case GrantRevoke(id, copy) => RevokeGrant(db, id, copy.userId, env.now)
    case EntryReconcile(id, copy, result) => Reconcile(db, id, copy.userId, result, env.now, env.bps, env.windowSeconds)
    case SubGrant(userId, packageId, copy, qty, valid) =>
      Grant(db, userId, packageId, qty, GrantSeconds(copy, valid), env.now, env.checkedAt)
  }

  function Perform(db: DB, action: Action, env: Env): Outcome {
    match action
    case NewOrder(userId, provider, fen, rate) => CreateOrder(db, userId, provider, fen, rate, env.now)
    case GatewayFailed(id) => FailOrder(db, id)
    case GatewayReplied(id, tradeNo) => StoreGatewayReply(db, id, tradeNo)
    case LapseStaleOrders(ttlMinutes) => Commit(LapseOrders(db, ttlMinutes, env.now))
    case Buy(userId, packageId, qty, coupon) =>
      Purchase(db, userId, packageId, qty, coupon, env.now, env.checkedAt, env.bps, env.windowSeconds)
    case ExpireSub(id) => Expire(db, id)
    case PauseSub(id, paused) => SetPaused(db, id, paused)
    case WithdrawCoupon(id) => RevokeCoupon(db, id, env.now)
    case IssueCoupons(userIds, template, qty, expiresAt) => GrantCoupons(db, userIds, template, qty, expiresAt)
    case SignUp(ordinary, bonus, template, expiresAt) => CreateUser(db, ordinary, bonus, template, expiresAt, env.now)
    case Refer(newUser, referrer, b1, b2) => ReferralBonuses(db, newUser, referrer, b1, b2, env.now)
    case Consume(userId, cost, logId) => ConsumeBalance(db, userId, cost, logId, env.now, env.bps, env.windowSeconds)
    case LeavePending(userId, unmetered, estimate, cached, logId) =>
      RecordPending(db, userId, unmetered, estimate, cached, logId, env.now)
    case ResetCounters(scope) => ResetUsage(db, scope, env.now)
    case EditCatalog(packages, plans) => Commit(db.(packages := packages, plans := plans))
    case Meter(usage) => Commit(db.(usage := usage))
    case EditUser(userId, ordinary, enabled) =>
      if userId >= |db.users| then Abort(UserMissing)
      else Commit(db.(users := db.users[userId := db.users[userId].(ordinary := ordinary, enabled := enabled)]))
  }

  /** Webhook phase 1: store the receipt; only a fresh paid event goes on. */
  function ReceiveHook(s: Sys, slot: nat, provider: string, event: Event): Sys {
    if IsRepeat(s.db, provider, event.nonce) then s
    else
      var db := StoreReceipt(s.db, provider, event.nonce);
      if event.kind == PaidEvent && slot !in s.slots then Sys(db, s.slots[slot := HookPaid(provider, event)])
      else Sys(db, s.slots)
  }

  /** Webhook phase 2: read the order; a missing order, another provider's order or a wrong
      amount ends the handler. */
  function Lookup(s: Sys, slot: nat, provider: string, event: Event): Sys {
    if event.outTradeNo < |s.db.orders| && Admits(provider, event, s.db.orders[event.outTradeNo]) then
      s.(slots := s.slots[slot := HookAdmitted(provider, event, s.db.orders[event.outTradeNo])])
    else
      s.(slots := s.slots - {slot})
  }

  function Apply(s: Sys, step: Step): Sys {
    match step
    case Receive(slot, provider, event) => ReceiveHook(s, slot, provider, event)
    case Begin(slot, work) =>
      if slot !in s.slots && Readable(s.db, work) then s.(slots := s.slots[slot := work]) else s
    case Finish(slot, env) =>
      if slot !in s.slots then s
      else if s.slots[slot].HookPaid? then Lookup(s, slot, s.slots[slot].provider, s.slots[slot].event)
      else Sys(Transact(s.db, s.slots[slot], env).After(s.db), s.slots - {slot})
    case Abandon(slot) => s.(slots := s.slots - {slot})
    case Do(action, env) => s.(db := Perform(s.db, action, env).After(s.db))
  }

  function Start(linkIndex: bool): Sys {
    Sys(EMPTY_DB.(linkIndex := linkIndex), map[])
  }

  function Run(linkIndex: bool, steps: seq<Step>): Sys {
    if steps == [] then Start(linkIndex)
    else Apply(Run(linkIndex, steps[..|steps| - 1]), steps[|steps| - 1])
  }

  // --- The invariant of runs -----------------------------------------------------------------------

  /** A remembered copy may be stale, but never in the fields its transaction relies on. */
  ghost predicate Fits(db: DB, work: Work) {
    match work
    case HookAdmitted(provider, event, copy) =>
      OrderCopy(db, event.outTradeNo, copy) && Admits(provider, event, copy)
    case ManualPaid(id, copy, _) => OrderCopy(db, id, copy)
    case TopupRefund(id, copy, _, _, _) => OrderCopy(db, id, copy)
    case SubRefund(id, copy, amount) => SubCopy(db, id, copy) && RefundAdmissible(copy, amount)
    case GrantRevoke(id, copy) => SubCopy(db, id, copy) && copy.granted
    case EntryReconcile(id, copy, _) => id < |db.entries| && copy == db.entries[id]
    case _ => true
  }

  ghost predicate SysInv(s: Sys) {
    Inv(s.db) && forall slot :: slot in s.slots ==> Fits(s.db, s.slots[slot])
  }

  /** Reading establishes what every later step preserves. */
  lemma ReadableFits(db: DB, work: Work)
    requires Readable(db, work)
    ensures Fits(db, work)
  {
  }

  lemma FitsEvolves(db: DB, db': DB, work: Work)
    requires Fits(db, work) && Evolves(db, db')
    ensures Fits(db', work)
  {
    match work
    case HookAdmitted(provider, event, copy) =>
      assert OrderEvolves(db.orders[event.outTradeNo], db'.orders[event.outTradeNo]);
    case ManualPaid(id, copy, _) => assert OrderEvolves(db.orders[id], db'.orders[id]);
    case TopupRefund(id, copy, _, _, _) => assert OrderEvolves(db.orders[id], db'.orders[id]);
    case SubRefund(id, copy, amount) => assert SubEvolves(db.subs[id], db'.subs[id]);
    case GrantRevoke(id, copy) => assert SubEvolves(db.subs[id], db'.subs[id]);
    case EntryReconcile(id, copy, _) => assert db'.entries[..|db.entries|] == db.entries;
    case _ =>
  }

  lemma RefundWork(db: DB, id: nat, copy: Order, fen: nat, reclaim: bool, ref: string, now: int)
    requires Inv(db) && OrderCopy(db, id, copy)
    ensures var out := RefundOrder(db, id, copy.userId, fen, reclaim, ref, now);
            out.Commit? ==> Inv(out.db) && Evolves(db, out.db)
  {
    hide InvUpTo;
    RefundKeeps(db, id, copy.userId, fen, reclaim, ref, now);
    RefundEvolves(db, id, copy.userId, fen, reclaim, ref, now);
  }

  lemma SubRefundWork(db: DB, id: nat, copy: Sub, amount: int, now: int)
    requires Inv(db) && SubCopy(db, id, copy) && RefundAdmissible(copy, amount)
    ensures var out := RefundSubscription(db, id, copy.userId, amount, now);
            out.Commit? ==> Inv(out.db) && Evolves(db, out.db)
  {
    hide InvUpTo;
    SubRefundKeeps(db, id, copy, amount, now);
    SubRefundEvolves(db, id, copy.userId, amount, now);
  }

  lemma RevokeWork(db: DB, id: nat, copy: Sub, now: int)
    requires Inv(db) && SubCopy(db, id, copy)
    ensures var out := RevokeGrant(db, id, copy.userId, now); out.Commit? ==> Inv(out.db) && Evolves(db, out.db)
  {
    hide InvUpTo;
    if RevokeGrant(db, id, copy.userId, now).Commit? {
      RevokeKeeps(db, id, copy.userId, now);
      RevokeEvolves(db, id, copy.userId, now);
    }
  }

  lemma ReconcileWork(db: DB, id: nat, copy: Entry, result: ReconcileResult, env: Env)
    requires Inv(db) && id < |db.entries| && copy == db.entries[id]
    ensures var out := Reconcile(db, id, copy.userId, result, env.now, env.bps, env.windowSeconds);
            out.Commit? ==> Inv(out.db) && Evolves(db, out.db)
  {
    hide InvUpTo;
    ReconcileKeeps(db, id, result, env.now, env.bps, env.windowSeconds);
    ReconcileEvolves(db, id, copy.userId, result, env.now, env.bps, env.windowSeconds);
  }

  lemma GrantWork(db: DB, userId: nat, packageId: nat, qty: nat, seconds: int, now: int, checkedAt: int)
    requires Inv(db)
    ensures var out := Grant(db, userId, packageId, qty, seconds, now, checkedAt);
            out.Commit? ==> Inv(out.db) && Evolves(db, out.db)
  {
    hide InvUpTo, GrantedSubs, PostUnits;
    GrantKeeps(db, userId, packageId, qty, seconds, now, checkedAt);
    GrantEvolves(db, userId, packageId, qty, seconds, now, checkedAt);
  }

  /** Every two-phase handler keeps the invariant although its copy may be stale. */
  lemma TransactKeeps(db: DB, work: Work, env: Env)
    requires Inv(db) && Fits(db, work)
    ensures Inv(Transact(db, work, env).After(db)) && Evolves(db, Transact(db, work, env).After(db))
  {
    hide InvUpTo, Evolves, FinalizePaid, MarkPaid, RefundOrder, Cancel, RefundSubscription, RevokeGrant, Reconcile,
         Grant;
    EvolvesSame(db);
    match work
    case HookPaid(_, _) =>
    case HookAdmitted(provider, event, copy) =>
      FinalizeKeeps(db, event, copy, env.now);
      FinalizeEvolves(db, event, copy, env.now);
    case ManualPaid(id, copy, ref) =>
      MarkPaidKeeps(db, id, copy.userId, ref, env.now);
      MarkPaidEvolves(db, id, copy.userId, ref, env.now);
    case TopupRefund(id, copy, fen, reclaim, ref) =>
      RefundWork(db, id, copy, fen, reclaim, ref, env.now);
    case SubCancel(id) =>
      CancelKeeps(db, id, env.now);
      CancelEvolves(db, id, env.now);
    case SubRefund(id, copy, amount) =>
      SubRefundWork(db, id, copy, amount, env.now);
    case GrantRevoke(id, copy) =>
      RevokeWork(db, id, copy, env.now);
    case EntryReconcile(id, copy, result) =>
      ReconcileWork(db, id, copy, result, env);
    case SubGrant(userId, packageId, copy, qty, valid) =>
      GrantWork(db, userId, packageId, qty, GrantSeconds(copy, valid), env.now, env.checkedAt);
  }

  lemma BuyWork(db: DB, userId: nat, packageId: nat, qty: nat, coupon: Option<nat>, env: Env)
    requires Inv(db)
    ensures var out := Purchase(db, userId, packageId, qty, coupon, env.now, env.checkedAt, env.bps, env.windowSeconds);
            out.Commit? ==> Inv(out.db) && Evolves(db, out.db)
  {
    hide InvUpTo, Purchasable, Purchase;
    PurchaseKeeps(db, userId, packageId, qty, coupon, env.now, env.checkedAt, env.bps, env.windowSeconds);
    PurchaseEvolves(db, userId, packageId, qty, coupon, env.now, env.checkedAt, env.bps, env.windowSeconds);
  }

  lemma IssueWork(db: DB, userIds: seq<nat>, template: CouponTemplate, qty: nat, expiresAt: Option<int>)
    requires Inv(db)
    ensures var out := GrantCoupons(db, userIds, template, qty, expiresAt);
            out.Commit? ==> Inv(out.db) && Evolves(db, out.db)
  {
    hide InvUpTo, GrantCoupons;
    GrantCouponsKeep(db, userIds, template, qty, expiresAt);
    GrantCouponsEvolve(db, userIds, template, qty, expiresAt);
  }

  lemma ResetWork(db: DB, scope: ResetScope, now: int)
    requires Inv(db)
    ensures var out := ResetUsage(db, scope, now); out.Commit? ==> Inv(out.db) && Evolves(db, out.db)
  {
    hide InvUpTo, ResetUsage, ResetEffect;
    ResetKeeps(db, scope, now);
    ResetEvolves(db, scope, now);
  }

  lemma CatalogKeeps(db: DB, packages: seq<Package>, plans: seq<Plan>)
    requires Inv(db)
    ensures Inv(db.(packages := packages, plans := plans)) && Evolves(db, db.(packages := packages, plans := plans))
  {
    hide Balanced, OrdersOk, RefundsOk, PaidOk, SubsUpTo, TotalsUpTo, StacksOk, CouponsOk, ReconsOk, OverdraftOk,
         LinksOk, AmountsOk, IndexOk;
    LinksFrame(db, db.(packages := packages, plans := plans));
    IndexFrame(db, db.(packages := packages, plans := plans));
  }

  lemma MeterKeeps(db: DB, usage: map<UsageKey, Usage>)
    requires Inv(db)
    ensures Inv(db.(usage := usage)) && Evolves(db, db.(usage := usage))
  {
    hide InvUpTo;
    UsageKeeps(db, usage);
  }

  lemma EditUserKeeps(db: DB, userId: nat, ordinary: bool, enabled: bool)
    requires Inv(db) && userId < |db.users|
    ensures var db' := db.(users := db.users[userId := db.users[userId].(ordinary := ordinary, enabled := enabled)]);
            Inv(db') && Evolves(db, db')
  {
    hide InvUpTo;
    PaidLoweredKeeps(db, |db.subs|, db.users[userId := db.users[userId].(ordinary := ordinary, enabled := enabled)]);
  }

  /** The one-transaction handlers of the order table. */
  lemma OrderActionKeeps(db: DB, action: Action, env: Env)
    requires Inv(db)
    requires action.NewOrder? || action.GatewayFailed? || action.GatewayReplied? || action.LapseStaleOrders?
    ensures Inv(Perform(db, action, env).After(db)) && Evolves(db, Perform(db, action, env).After(db))
  {
    hide InvUpTo, Evolves, CreateOrder, FailOrder, StoreGatewayReply, LapseOrders;
    EvolvesSame(db);
    match action
    case NewOrder(userId, provider, fen, rate) =>
      CreateOrderKeeps(db, userId, provider, fen, rate, env.now);
      CreateOrderEvolves(db, userId, provider, fen, rate, env.now);
    case GatewayFailed(id) =>
      FailOrderKeeps(db, id);
      FailOrderEvolves(db, id);
    case GatewayReplied(id, tradeNo) =>
      GatewayReplyKeeps(db, id, tradeNo);
      GatewayReplyEvolves(db, id, tradeNo);
    case LapseStaleOrders(ttlMinutes) =>
      LapseKeeps(db, ttlMinutes, env.now);
      LapseEvolves(db, ttlMinutes, env.now);
  }

  /** Every one-transaction handler keeps the invariant. */
  lemma PerformKeeps(db: DB, action: Action, env: Env)
    requires Inv(db)
    ensures Inv(Perform(db, action, env).After(db)) && Evolves(db, Perform(db, action, env).After(db))
  {
    hide InvUpTo, Evolves, CreateOrder, FailOrder, StoreGatewayReply, LapseOrders, Purchase, Expire, SetPaused,
         RevokeCoupon, GrantCoupons, CreateUser, ReferralBonuses, ConsumeBalance, RecordPending, ResetUsage;
    EvolvesSame(db);
    match action
    case NewOrder(_, _, _, _) => OrderActionKeeps(db, action, env);
    case GatewayFailed(_) => OrderActionKeeps(db, action, env);
    case GatewayReplied(_, _) => OrderActionKeeps(db, action, env);
    case LapseStaleOrders(_) => OrderActionKeeps(db, action, env);
    case Buy(userId, packageId, qty, coupon) =>
      BuyWork(db, userId, packageId, qty, coupon, env);
    case ExpireSub(id) =>
      ExpireKeeps(db, id);
      ExpireEvolves(db, id);
    case PauseSub(id, paused) =>
      SetPausedKeeps(db, id, paused);
      SetPausedEvolves(db, id, paused);
    case WithdrawCoupon(id) =>
      RevokeCouponKeeps(db, id, env.now);
      RevokeCouponEvolves(db, id, env.now);
    case IssueCoupons(userIds, template, qty, expiresAt) =>
      IssueWork(db, userIds, template, qty, expiresAt);
    case SignUp(ordinary, bonus, template, expiresAt) =>
      CreateUserKeeps(db, ordinary, bonus, template, expiresAt, env.now);
      CreateUserEvolves(db, ordinary, bonus, template, expiresAt, env.now);
    case Refer(newUser, referrer, b1, b2) =>
      ReferralBonusesKeep(db, newUser, referrer, b1, b2, env.now);
      ReferralEvolves(db, newUser, referrer, b1, b2, env.now);
    case Consume(userId, cost, logId) =>
      ConsumeKeeps(db, userId, cost, logId, env.now, env.bps, env.windowSeconds);
      ConsumeEvolves(db, userId, cost, logId, env.now, env.bps, env.windowSeconds);
    case LeavePending(userId, unmetered, estimate, cached, logId) =>
      RecordPendingKeeps(db, userId, unmetered, estimate, cached, logId, env.now);
      RecordPendingEvolves(db, userId, unmetered, estimate, cached, logId, env.now);
    case ResetCounters(scope) =>
      ResetWork(db, scope, env.now);
    case EditCatalog(packages, plans) =>
      CatalogKeeps(db, packages, plans);
    case Meter(usage) =>
      MeterKeeps(db, usage);
    case EditUser(userId, ordinary, enabled) =>
      if userId < |db.users| {
        EditUserKeeps(db, userId, ordinary, enabled);
      }
  }

  lemma SlotsEvolve(s: Sys, db': DB)
    requires SysInv(s) && Evolves(s.db, db')
    ensures forall slot :: slot in s.slots ==> Fits(db', s.slots[slot])
  {
    hide InvUpTo;
    forall slot | slot in s.slots ensures Fits(db', s.slots[slot]) {
      FitsEvolves(s.db, db', s.slots[slot]);
    }
  }

  /** One step, whatever it is, keeps the invariant and undoes nothing. */
  lemma StepKeeps(s: Sys, step: Step)
    requires SysInv(s)
    ensures SysInv(Apply(s, step)) && Evolves(s.db, Apply(s, step).db)
  {
    hide InvUpTo, Evolves, Fits, Transact, Perform, StoreReceipt, Readable;
    EvolvesSame(s.db);
    match step
    case Receive(slot, provider, event) =>
      if !IsRepeat(s.db, provider, event.nonce) {
        ReceiptKeeps(s.db, provider, event.nonce);
        ReceiptEvolves(s.db, provider, event.nonce);
        SlotsEvolve(s, StoreReceipt(s.db, provider, event.nonce));
        HookFits(StoreReceipt(s.db, provider, event.nonce), provider, event);
      }
    case Begin(slot, work) =>
      if Readable(s.db, work) {
        ReadableFits(s.db, work);
      }
    case Finish(slot, env) =>
      if slot in s.slots {
        if s.slots[slot].HookPaid? {
          LookupKeeps(s, slot, s.slots[slot].provider, s.slots[slot].event);
        } else {
          TransactKeeps(s.db, s.slots[slot], env);
          SlotsEvolve(s, Transact(s.db, s.slots[slot], env).After(s.db));
        }
      }
    case Abandon(slot) =>
    case Do(action, env) =>
      PerformKeeps(s.db, action, env);
      SlotsEvolve(s, Perform(s.db, action, env).After(s.db));
  }

  lemma HookFits(db: DB, provider: string, event: Event)
    ensures Fits(db, HookPaid(provider, event))
  {
  }

  lemma LookupKeeps(s: Sys, slot: nat, provider: string, event: Event)
    requires SysInv(s)
    ensures SysInv(Lookup(s, slot, provider, event)) && Lookup(s, slot, provider, event).db == s.db
  {
    hide InvUpTo;
  }

  /** Every reachable state satisfies the invariant, whichever way handlers interleave and
      whether or not the ledger index is installed. */
  lemma {:induction false} Reachable(linkIndex: bool, steps: seq<Step>)
    ensures SysInv(Run(linkIndex, steps)) && Run(linkIndex, steps).db.linkIndex == linkIndex
  {
    hide InvUpTo, Apply, Fits;
    if steps == [] {
      EmptyInv(linkIndex);
    } else {
      var last := |steps| - 1;
      Reachable(linkIndex, steps[..last]);
      StepKeeps(Run(linkIndex, steps[..last]), steps[last]);
    }
  }

  /** Nothing is undone between any two states of a run. */
  lemma {:induction false} RunEvolves(linkIndex: bool, steps: seq<Step>, n: nat)
    requires n <= |steps|
    ensures Evolves(Run(linkIndex, steps[..n]).db, Run(linkIndex, steps).db)
  {
    hide InvUpTo, Apply, Fits, Evolves;
    if n == |steps| {
      assert steps[..n] == steps;
      EvolvesSame(Run(linkIndex, steps).db);
    } else {
      var last := |steps| - 1;
      var front := steps[..last];
      assert front[..n] == steps[..n];
      RunEvolves(linkIndex, front, n);
      Reachable(linkIndex, front);
      StepKeeps(Run(linkIndex, front), steps[last]);
      EvolvesTrans(Run(linkIndex, steps[..n]).db, Run(linkIndex, front).db, Run(linkIndex, steps).db);
    }
  }
}
