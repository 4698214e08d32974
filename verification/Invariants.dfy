/** What every committed state keeps, table by table. */
module Invariants {
  import opened Options
  import opened Money
  import opened Model
  import opened Ledger
  import opened Charges

  // --- Top-up orders ------------------------------------------------------------------

  function RefundedMicro(o: Order): int {
    match Prorated(o.amountMicro, o.moneyFen, o.refundedFen)
    case None => 0
    case Some(v) => v
  }

  function FenSum(refunds: seq<Refund>, orderId: nat): int {
    if refunds == [] then 0
    else
      var r := refunds[|refunds| - 1];
      FenSum(refunds[..|refunds| - 1], orderId) + (if r.orderId == orderId then r.amountFen else 0)
  }

  function MicroSum(refunds: seq<Refund>, orderId: nat): int {
    if refunds == [] then 0
    else
      var r := refunds[|refunds| - 1];
      MicroSum(refunds[..|refunds| - 1], orderId) + (if r.orderId == orderId then r.amountMicro else 0)
  }

  function RefundRows(refunds: seq<Refund>, orderId: nat): nat {
    if refunds == [] then 0
    else
      RefundRows(refunds[..|refunds| - 1], orderId) + (if refunds[|refunds| - 1].orderId == orderId then 1 else 0)
  }

  lemma RefundAppended(refunds: seq<Refund>, r: Refund)
    ensures forall i: nat ::
              FenSum(refunds + [r], i) == FenSum(refunds, i) + (if r.orderId == i then r.amountFen else 0)
    ensures forall i: nat ::
              MicroSum(refunds + [r], i) == MicroSum(refunds, i) + (if r.orderId == i then r.amountMicro else 0)
    ensures forall i: nat ::
              RefundRows(refunds + [r], i) == RefundRows(refunds, i) + (if r.orderId == i then 1 else 0)
  {
    assert (refunds + [r])[..|refunds|] == refunds;
  }

  /** The lifecycle facts of one order row. */
  ghost predicate OrderRow(o: Order) {
    && 0 < o.amountMicro <= MAX_INT64 && 0 < o.moneyFen && 0 <= o.refundedFen <= o.moneyFen
    && (o.status == Created || o.status == OrderCanceled ==> o.paidAt == None)
    && (o.status == Paid ==> o.paidAt.Some? && o.refundedFen < o.moneyFen)
    && (o.status == Refunded ==> o.paidAt.Some? && o.refundedFen == o.moneyFen)
    && (o.paidAt == None ==> o.refundedFen == 0)
  }

  ghost predicate TopupEntryOf(e: Entry, orders: seq<Order>) {
    && e.link.OrderLink? && e.link.id < |orders|
    && e.userId == orders[e.link.id].userId && e.amount == orders[e.link.id].amountMicro
  }

  ghost predicate RefundEntryOf(e: Entry, orders: seq<Order>) {
    && e.link.OrderLink? && e.link.id < |orders|
    && e.userId == orders[e.link.id].userId && e.amount <= 0
  }

  /** An order is credited at most once, and its refund rows account for its refunded sum. */
  ghost predicate OrdersOk(orders: seq<Order>, refunds: seq<Refund>, entries: seq<Entry>) {
    && (forall i: nat :: i < |orders| ==> OrderRow(orders[i]))
    && (forall i: nat :: i < |orders| ==>
          Count(entries, Topup, OrderLink(i)) == if orders[i].paidAt.Some? then 1 else 0)
    && (forall i: nat :: i < |orders| ==> Count(entries, RefundTopup, OrderLink(i)) == RefundRows(refunds, i))
    && (forall k :: 0 <= k < |entries| && entries[k].kind == Topup ==> TopupEntryOf(entries[k], orders))
    && (forall k :: 0 <= k < |entries| && entries[k].kind == RefundTopup ==> RefundEntryOf(entries[k], orders))
  }

  ghost predicate RefundsOk(orders: seq<Order>, refunds: seq<Refund>) {
    && (forall i: nat :: i < |orders| ==> FenSum(refunds, i) == orders[i].refundedFen)
    && (forall i: nat :: i < |orders| ==> MicroSum(refunds, i) == RefundedMicro(orders[i]))
    && (forall k :: 0 <= k < |refunds| ==>
          refunds[k].orderId < |orders| && refunds[k].amountFen > 0 && refunds[k].amountMicro >= 0)
    && (forall j, k :: 0 <= j < k < |refunds| ==> refunds[j].externalRef != refunds[k].externalRef)
  }

  // --- Paid quota -------------------------------------------------------------------------

  /** What is still held of one order's credit. */
  function Held(o: Order, userId: nat): int {
    if o.userId == userId && o.paidAt.Some? then o.amountMicro - RefundedMicro(o) else 0
  }

  /** Credited minus refunded micro-USD over one user's orders. */
  function NetPaid(orders: seq<Order>, userId: nat): int {
    if orders == [] then 0
    else NetPaid(orders[..|orders| - 1], userId) + Held(orders[|orders| - 1], userId)
  }

  ghost predicate PaidOk(users: seq<User>, orders: seq<Order>) {
    forall u: nat :: u < |users| ==> 0 <= users[u].paidQuota <= NetPaid(orders, u)
  }

  // --- Subscriptions -----------------------------------------------------------------------

  ghost predicate SubRow(s: Sub) {
    && 0 <= s.unitPrice
    && (s.granted ==> s.unitPrice == 0)
    && (s.canceledAt.Some? <==> s.status == Canceled || s.status == SubRefunded || s.status == Revoked)
    && (s.status == SubRefunded ==> !s.granted && s.unitPrice > 0)
    && (s.status == Revoked ==> s.granted)
  }

  ghost predicate PurchaseEntryOf(e: Entry, subs: seq<Sub>) {
    && e.link.SubLink? && e.link.id < |subs|
    && e.userId == subs[e.link.id].userId && e.amount == -subs[e.link.id].unitPrice
    && !subs[e.link.id].granted
  }

  ghost predicate SubRefundEntryOf(e: Entry, subs: seq<Sub>) {
    && e.link.SubRefundLink? && e.link.id < |subs|
    && e.userId == subs[e.link.id].userId && 0 < e.amount <= subs[e.link.id].unitPrice
    && !subs[e.link.id].granted
  }

  /** Entries of the first n subscriptions are written; those of the others are not yet. */
  ghost predicate SubsUpTo(subs: seq<Sub>, entries: seq<Entry>, n: nat) {
    && n <= |subs|
    && (forall i: nat :: i < |subs| ==> SubRow(subs[i]))
    && (forall i: nat :: i < |subs| ==>
          Count(entries, PurchaseSub, SubLink(i)) == if i < n && !subs[i].granted then 1 else 0)
    && (forall i: nat :: i < |subs| ==>
          Count(entries, AdminGrantSub, SubLink(i)) == if i < n && subs[i].granted then 1 else 0)
    && (forall i: nat :: i < |subs| ==>
          Count(entries, AdminRevokeGrant, SubLink(i)) == if subs[i].status == Revoked then 1 else 0)
    && (forall i: nat :: i < |subs| ==>
          Count(entries, RefundSub, SubRefundLink(i)) == if subs[i].status == SubRefunded then 1 else 0)
    && (forall k :: 0 <= k < |entries| && entries[k].kind == PurchaseSub ==> PurchaseEntryOf(entries[k], subs))
    && (forall k :: 0 <= k < |entries| && entries[k].kind == RefundSub ==> SubRefundEntryOf(entries[k], subs))
  }

  function Paying(s: Sub, userId: nat, onlyRefunded: bool): int {
    if s.userId == userId && (onlyRefunded ==> s.status == SubRefunded) then s.unitPrice else 0
  }

  /** Unit prices over one user's subscriptions, all of them or only the refunded ones. */
  function PriceSum(subs: seq<Sub>, userId: nat, onlyRefunded: bool): int {
    if subs == [] then 0
    else PriceSum(subs[..|subs| - 1], userId, onlyRefunded) + Paying(subs[|subs| - 1], userId, onlyRefunded)
  }

  ghost predicate TotalsUpTo(subs: seq<Sub>, entries: seq<Entry>, n: nat) {
    && n <= |subs|
    && (forall u: nat :: Total(entries, u, PurchaseSub) == -PriceSum(subs[..n], u, false))
    && (forall u: nat :: Total(entries, u, RefundSub) <= PriceSum(subs[..n], u, true))
  }

  /** How many of these subscriptions belong to one user and one package. */
  function PairCount(subs: seq<Sub>, userId: nat, packageId: nat): nat {
    if subs == [] then 0
    else
      PairCount(subs[..|subs| - 1], userId, packageId)
      + (if subs[|subs| - 1].userId == userId && subs[|subs| - 1].packageId == packageId then 1 else 0)
  }

  /** Stack indexes count 1, 2, 3, ... in creation order. */
  ghost predicate StacksOk(subs: seq<Sub>) {
    subs == [] ||
    var last := |subs| - 1;
    && StacksOk(subs[..last])
    && subs[last].stackIndex == PairCount(subs[..last], subs[last].userId, subs[last].packageId) + 1
  }

  // --- Coupons --------------------------------------------------------------------------------

  ghost predicate UsedOnce(c: Coupon, id: nat, subs: seq<Sub>) {
    && (c.status == Used <==> c.usedOn.Some?)
    && (c.usedOn.Some? ==>
          && c.usedOn.value < |subs|
          && subs[c.usedOn.value].coupon == Some(id)
          && subs[c.usedOn.value].userId == c.userId
          && c.saving + subs[c.usedOn.value].unitPrice == subs[c.usedOn.value].listPrice)
  }

  ghost predicate PricedBy(s: Sub, id: nat, coupons: seq<Coupon>) {
    && s.unitPrice <= s.listPrice
    && (s.coupon == None && !s.granted ==> s.unitPrice == s.listPrice)
    && (s.coupon.Some? ==> s.coupon.value < |coupons| && coupons[s.coupon.value].usedOn == Some(id))
  }

  ghost predicate CouponsOk(coupons: seq<Coupon>, subs: seq<Sub>) {
    && (forall c: nat :: c < |coupons| ==> UsedOnce(coupons[c], c, subs))
    && (forall s: nat :: s < |subs| ==> PricedBy(subs[s], s, coupons))
  }

  // --- Reconciliations ----------------------------------------------------------------------------

  ghost predicate ReconRow(r: Reconciliation, entries: seq<Entry>) {
    && r.entryId < |entries| && Open(entries[r.entryId])
    && (r.result == Charged <==> r.adjustment.Some?)
    && (r.adjustment.Some? ==>
          && r.adjustment.value < |entries|
          && AdjustmentOf(entries[r.adjustment.value], r.entryId, entries))
  }

  ghost predicate AdjustmentOf(a: Entry, entryId: nat, entries: seq<Entry>)
    requires entryId < |entries|
  {
    && a.kind == AdminAdjust && a.link == EntryLink(entryId)
    && a.userId == entries[entryId].userId
    && a.amount == -entries[entryId].estimatedCost
    && 0 < entries[entryId].estimatedCost <= MAX_SINGLE_RECONCILE_MICRO
  }

  ghost predicate ChargedFor(recons: seq<Reconciliation>, entryId: nat) {
    exists i :: 0 <= i < |recons| && recons[i].entryId == entryId && recons[i].result == Charged
  }

  /** What charged reconciliations took from one user. */
  function ChargedSum(recons: seq<Reconciliation>, entries: seq<Entry>, userId: nat): int {
    if recons == [] then 0
    else
      var r := recons[|recons| - 1];
      ChargedSum(recons[..|recons| - 1], entries, userId)
      + (if r.result == Charged && r.entryId < |entries| && entries[r.entryId].userId == userId
         then entries[r.entryId].estimatedCost else 0)
  }

  ghost predicate ReconsOk(recons: seq<Reconciliation>, entries: seq<Entry>) {
    && (forall r :: 0 <= r < |recons| ==> ReconRow(recons[r], entries))
    && (forall q, r :: 0 <= q < r < |recons| ==> recons[q].entryId != recons[r].entryId)
    && (forall k: nat :: Count(entries, AdminAdjust, EntryLink(k)) == if ChargedFor(recons, k) then 1 else 0)
    && (forall k: nat :: !Reconciled(recons, k) ==> Count(entries, BonusCredit, EntryLink(k)) == 0)
    && (forall u: nat :: ReconciledTotal(entries, u) == -ChargedSum(recons, entries, u))
    && (forall i: nat :: Count(entries, AdminAdjust, ResetLink(i)) <= 1)
  }

  // --- Overdraft and references -----------------------------------------------------------------------

  /** A quota is below zero only by what top-up refunds reclaimed. */
  ghost predicate OverdraftOk(users: seq<User>, entries: seq<Entry>) {
    && (forall u: nat :: u < |users| ==> users[u].quota >= Total(entries, u, RefundTopup))
    && (forall u: nat :: Total(entries, u, RefundTopup) <= 0)
  }

  ghost predicate LinkInRange(db: DB, link: Link) {
    match link
    case OrderLink(i) => i < |db.orders|
    case SubLink(i) => i < |db.subs|
    case SubRefundLink(i) => i < |db.subs|
    case UserLink(i) => i < |db.users|
    case EntryLink(i) => i < |db.entries|
    case ResetLink(i) => i < |db.subs|
    case _ => true
  }

  ghost predicate LinksOk(db: DB) {
    forall k :: 0 <= k < |db.entries| ==> LinkInRange(db, db.entries[k].link)
  }

  /** What refunds took back out of one user's quota. */
  function Reclaimed(refunds: seq<Refund>, orders: seq<Order>, userId: nat): int {
    if refunds == [] then 0
    else
      var r := refunds[|refunds| - 1];
      Reclaimed(refunds[..|refunds| - 1], orders, userId)
      + (if r.reclaim && r.orderId < |orders| && orders[r.orderId].userId == userId then r.amountMicro else 0)
  }

  /** Grants, revocations and unbilled usage move nothing; refund entries match the refund rows. */
  ghost predicate AmountsOk(db: DB) {
    && (forall k :: 0 <= k < |db.entries| && ZeroAmountKind(db.entries[k].kind) ==> db.entries[k].amount == 0)
    && (forall k :: 0 <= k < |db.refunds| ==> db.refunds[k].orderId < |db.orders|)
    && (forall u: nat :: Total(db.entries, u, RefundTopup) == -Reclaimed(db.refunds, db.orders, u))
  }

  ghost predicate OwnersOk(db: DB) {
    && (forall i: nat :: i < |db.orders| ==> db.orders[i].userId < |db.users|)
    && (forall i: nat :: i < |db.subs| ==> db.subs[i].userId < |db.users|)
    && (forall i: nat :: i < |db.coupons| ==> db.coupons[i].userId < |db.users|)
  }

  ghost predicate IndexOk(db: DB) {
    db.linkIndex ==> forall k: Kind, l: Link :: l != NoLink ==> Count(db.entries, k, l) <= 1
  }

  ghost predicate InvUpTo(db: DB, n: nat) {
    && Balanced(db.users, db.entries)
    && OrdersOk(db.orders, db.refunds, db.entries)
    && RefundsOk(db.orders, db.refunds)
    && PaidOk(db.users, db.orders)
    && SubsUpTo(db.subs, db.entries, n)
    && TotalsUpTo(db.subs, db.entries, n)
    && StacksOk(db.subs)
    && CouponsOk(db.coupons, db.subs)
    && ReconsOk(db.recons, db.entries)
    && OverdraftOk(db.users, db.entries)
    && LinksOk(db)
    && AmountsOk(db)
    && OwnersOk(db)
    && IndexOk(db)
  }

  /** The invariant of every committed state. */
  ghost predicate Inv(db: DB) {
    InvUpTo(db, |db.subs|)
  }

  lemma EmptyInv(linkIndex: bool)
    ensures Inv(EMPTY_DB.(linkIndex := linkIndex))
  {
    hide Balanced, OrdersOk, RefundsOk, SubsUpTo, TotalsUpTo, CouponsOk, ReconsOk;
    EmptyTables();
  }

  lemma EmptyTables()
    ensures Balanced([], []) && OrdersOk([], [], []) && RefundsOk([], [])
    ensures SubsUpTo([], [], 0) && TotalsUpTo([], [], 0)
    ensures CouponsOk([], []) && ReconsOk([], [])
  {
  }

  // --- An append that concerns no table but the ledger ---------------------------------------------------

  lemma OrdersPost(orders: seq<Order>, refunds: seq<Refund>, entries: seq<Entry>, e: Entry)
    requires OrdersOk(orders, refunds, entries) && e.kind != Topup && e.kind != RefundTopup
    ensures OrdersOk(orders, refunds, entries + [e])
  {
    Appended(entries, e);
  }

  lemma SubsPost(subs: seq<Sub>, entries: seq<Entry>, n: nat, e: Entry)
    requires SubsUpTo(subs, entries, n) && TotalsUpTo(subs, entries, n)
    requires e.kind != PurchaseSub && e.kind != RefundSub && e.kind != AdminGrantSub && e.kind != AdminRevokeGrant
    ensures SubsUpTo(subs, entries + [e], n) && TotalsUpTo(subs, entries + [e], n)
  {
    Appended(entries, e);
  }

  lemma {:induction false} ChargedSumFrame(recons: seq<Reconciliation>, entries: seq<Entry>, e: Entry, userId: nat)
    requires forall r :: 0 <= r < |recons| ==> recons[r].entryId < |entries|
    ensures ChargedSum(recons, entries + [e], userId) == ChargedSum(recons, entries, userId)
  {
    if recons != [] {
      ChargedSumFrame(recons[..|recons| - 1], entries, e, userId);
    }
  }

  lemma ReconRowsPost(recons: seq<Reconciliation>, entries: seq<Entry>, e: Entry)
    requires forall r :: 0 <= r < |recons| ==> ReconRow(recons[r], entries)
    ensures forall r :: 0 <= r < |recons| ==> ReconRow(recons[r], entries + [e])
  {
    forall r | 0 <= r < |recons|
      ensures ReconRow(recons[r], entries + [e])
    {
      assert ReconRow(recons[r], entries);
    }
  }

  /** Neither an adjustment of a pending entry nor a reward for one still unreconciled. */
  ghost predicate ReconNeutral(recons: seq<Reconciliation>, entries: seq<Entry>, e: Entry) {
    && (e.kind == AdminAdjust ==> !e.link.EntryLink?)
    && (e.kind == AdminAdjust && e.link.ResetLink? ==> Count(entries, AdminAdjust, e.link) == 0)
    && (e.kind == BonusCredit && e.link.EntryLink? ==> Reconciled(recons, e.link.id))
  }

  lemma ReconsPost(recons: seq<Reconciliation>, entries: seq<Entry>, e: Entry)
    requires ReconsOk(recons, entries) && ReconNeutral(recons, entries, e)
    ensures ReconsOk(recons, entries + [e])
  {
    Appended(entries, e);
    ReconRowsPost(recons, entries, e);
    forall u: nat
      ensures ReconciledTotal(entries + [e], u) == -ChargedSum(recons, entries + [e], u)
    {
      ChargedSumFrame(recons, entries, e, u);
    }
  }

  lemma OverdraftPost(users: seq<User>, entries: seq<Entry>, users': seq<User>, e: Entry)
    requires OverdraftOk(users, entries) && QuotaMoved(users, users', e.userId, e.amount)
    requires e.kind != RefundTopup && (e.amount >= 0 || users'[e.userId].quota >= 0)
    ensures OverdraftOk(users', entries + [e])
  {
    Appended(entries, e);
  }

  /** Orders never change hands. */
  ghost predicate SameOwners(orders: seq<Order>, orders': seq<Order>) {
    && |orders'| >= |orders|
    && forall i: nat :: i < |orders| ==> orders'[i].userId == orders[i].userId
  }

  lemma {:induction false} ReclaimedFrame(refunds: seq<Refund>, orders: seq<Order>, orders': seq<Order>, userId: nat)
    requires SameOwners(orders, orders') && forall k :: 0 <= k < |refunds| ==> refunds[k].orderId < |orders|
    ensures Reclaimed(refunds, orders', userId) == Reclaimed(refunds, orders, userId)
  {
    if refunds != [] {
      ReclaimedFrame(refunds[..|refunds| - 1], orders, orders', userId);
    }
  }

  /** Links stay in range while tables only grow, and amounts agree while no refund is written. */
  lemma LinksFrame(db: DB, db': DB)
    requires LinksOk(db) && AmountsOk(db) && db'.entries == db.entries && db'.refunds == db.refunds
    requires SameOwners(db.orders, db'.orders) && |db'.subs| >= |db.subs| && |db'.users| >= |db.users|
    ensures LinksOk(db') && AmountsOk(db')
  {
    forall k | 0 <= k < |db'.entries| ensures LinkInRange(db', db'.entries[k].link) {
      assert LinkInRange(db, db.entries[k].link);
    }
    forall u: nat ensures Reclaimed(db.refunds, db'.orders, u) == Reclaimed(db.refunds, db.orders, u) {
      ReclaimedFrame(db.refunds, db.orders, db'.orders, u);
    }
  }

  lemma LinksPost(db: DB, db': DB, e: Entry)
    requires LinksOk(db) && AmountsOk(db) && LinkInRange(db, e.link) && (ZeroAmountKind(e.kind) ==> e.amount == 0)
    requires db'.entries == db.entries + [e] && e.kind != RefundTopup && db'.refunds == db.refunds
    requires SameOwners(db.orders, db'.orders) && |db'.subs| >= |db.subs| && |db'.users| >= |db.users|
    ensures LinksOk(db') && AmountsOk(db')
  {
    var db1 := db'.(entries := db.entries);
    LinksFrame(db, db1);
    Appended(db.entries, e);
    LinkAdded(db1, db', e);
  }

  lemma LinkAdded(db: DB, db': DB, e: Entry)
    requires LinksOk(db) && LinkInRange(db, e.link) && db'.entries == db.entries + [e]
    requires |db'.orders| >= |db.orders| && |db'.subs| >= |db.subs| && |db'.users| >= |db.users|
    ensures LinksOk(db')
  {
    forall k | 0 <= k < |db'.entries| ensures LinkInRange(db', db'.entries[k].link) {
      if k < |db.entries| {
        assert LinkInRange(db, db.entries[k].link);
      }
    }
  }

  lemma IndexPost(db: DB, db': DB, e: Entry)
    requires IndexOk(db) && !LinkTaken(db, e.kind, e.link)
    requires db'.entries == db.entries + [e] && db'.linkIndex == db.linkIndex
    ensures IndexOk(db')
  {
    Appended(db.entries, e);
  }

  lemma LinkKnown(db: DB, n: nat, k: nat)
    requires InvUpTo(db, n) && k < |db.entries|
    ensures LinkInRange(db, db.entries[k].link)
  {
  }

  ghost predicate NeutralKind(kind: Kind) {
    && kind != Topup && kind != RefundTopup
    && kind != PurchaseSub && kind != RefundSub && kind != AdminGrantSub && kind != AdminRevokeGrant
  }

  /** Credits, guarded debits and zero entries of the kinds no table accounts for. */
  lemma NeutralPost(db: DB, n: nat, userId: nat, amount: int, kind: Kind, link: Link, at: int)
    requires InvUpTo(db, n) && NeutralKind(kind) && LinkInRange(db, link)
    requires kind != AdminAdjust
    requires kind == BonusCredit && link.EntryLink? ==> Reconciled(db.recons, link.id)
    requires amount >= 0 || (userId < |db.users| && db.users[userId].quota + amount >= 0)
    ensures Post(db, userId, amount, kind, link, at).Commit? ==> InvUpTo(Post(db, userId, amount, kind, link, at).db, n)
  {
    hide Balanced, OrdersOk, RefundsOk, SubsUpTo, TotalsUpTo, StacksOk, CouponsOk, ReconsOk, OverdraftOk, LinksOk,
         AmountsOk, IndexOk;
    if Post(db, userId, amount, kind, link, at).Commit? {
      var db' := Post(db, userId, amount, kind, link, at).db;
      var e := db'.entries[|db.entries|];
      BalancedPost(db.users, db.entries, db'.users, e);
      OrdersPost(db.orders, db.refunds, db.entries, e);
      SubsPost(db.subs, db.entries, n, e);
      ReconsPost(db.recons, db.entries, e);
      OverdraftPost(db.users, db.entries, db'.users, e);
      LinksPost(db, db', e);
      IndexPost(db, db', e);
    }
  }

  /** A zero-amount entry that moves no quota. */
  lemma NeutralWrite(db: DB, n: nat, e: Entry)
    requires InvUpTo(db, n) && NeutralKind(e.kind) && LinkInRange(db, e.link) && ReconNeutral(db.recons, db.entries, e)
    requires e.userId < |db.users| && e.amount == 0
    requires e.state == Settled ==> e.balanceAfter == db.users[e.userId].quota
    ensures WriteEntry(db, e).Commit? ==> InvUpTo(WriteEntry(db, e).db, n)
  {
    hide Balanced, OrdersOk, RefundsOk, SubsUpTo, TotalsUpTo, StacksOk, CouponsOk, ReconsOk, OverdraftOk, LinksOk,
         AmountsOk, IndexOk;
    if WriteEntry(db, e).Commit? {
      var db' := WriteEntry(db, e).db;
      BalancedPost(db.users, db.entries, db'.users, e);
      OrdersPost(db.orders, db.refunds, db.entries, e);
      SubsPost(db.subs, db.entries, n, e);
      ReconsPost(db.recons, db.entries, e);
      OverdraftPost(db.users, db.entries, db'.users, e);
      LinksPost(db, db', e);
      IndexPost(db, db', e);
    }
  }
}
