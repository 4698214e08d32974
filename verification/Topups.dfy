/** Top-up orders: creation, the three webhook phases, the manual mark-paid and the
    partial refund, each as the state change its transaction commits. */
module Topups {
  import opened Options
  import opened Money
  import opened Model
  import opened Ledger

  datatype EventKind = PaidEvent | NonTerminalEvent | RefundedEvent | FailedEvent
  datatype AmountKind = FenCny | MicroUsd | UnknownAmount

  /** A webhook after its provider verified and parsed it. Orders are named by their row. */
  datatype Event = Event(
    kind: EventKind,
    outTradeNo: nat,
    externalTradeNo: string,
    nonce: string,
    amountKind: AmountKind,
    amountRaw: int)

  // --- Order creation -----------------------------------------------------------

  function CreateOrder(db: DB, userId: nat, provider: string, fen: int, rateMicros: int, now: int): Outcome {
    if userId >= |db.users| then Abort(UserMissing)
    else
      match UsdMicroFromFen(fen, rateMicros)
      case None => Abort(AmountInvalid)
      case Some(micro) =>
        Commit(db.(orders := db.orders
          + [Order(userId, provider, fen, micro, rateMicros, Created, 0, "", "", None, now)]))
  }

  /** The gateway refused, or its reply could not be stored: status is overwritten unguarded. */
  function FailOrder(db: DB, id: nat): Outcome {
    if id >= |db.orders| then Abort(RowMissing)
    else Commit(db.(orders := db.orders[id := db.orders[id].(status := Failed)]))
  }

  function StoreGatewayReply(db: DB, id: nat, tradeNo: string): Outcome {
    if id >= |db.orders| then Abort(RowMissing)
    else Commit(db.(orders := db.orders[id := db.orders[id].(tradeNo := tradeNo)]))
  }

  /** A missing, unreadable or too small setting counts as 30 minutes. */
  function OrderTtlMinutes(configured: Option<int>): int {
    match configured
    case None => 30
    case Some(minutes) => if minutes < 5 then 30 else minutes
  }

  function Lapsed(o: Order, cutoff: int): Order {
    if o.status == Created && o.createdAt < cutoff then o.(status := OrderCanceled) else o
  }

  /** The cron that cancels every order left waiting for longer than the time limit. */
  function LapseOrders(db: DB, ttlMinutes: Option<int>, now: int): DB {
    var cutoff := now - OrderTtlMinutes(ttlMinutes) * 60_000_000;
    db.(orders := seq(|db.orders|, i requires 0 <= i < |db.orders| => Lapsed(db.orders[i], cutoff)))
  }

  // --- Webhook phases --------------------------------------------------------------

  /** Phase 1: (provider, nonce) is unique; a repeat stores nothing. */
  function StoreReceipt(db: DB, provider: string, nonce: string): DB {
    db.(receipts := db.receipts + {ReceiptKey(provider, nonce)})
  }

  function IsRepeat(db: DB, provider: string, nonce: string): bool {
    ReceiptKey(provider, nonce) in db.receipts
  }

  /** Zero-tolerance amount check against the order copy. */
  function AmountMatches(event: Event, order: Order): bool {
    match event.amountKind
    case FenCny => event.amountRaw == order.moneyFen
    case MicroUsd => event.amountRaw == order.amountMicro
    case UnknownAmount => false
  }

  /** Phase 2 lets the event through to finalisation with this copy of the order. */
  predicate Admits(provider: string, event: Event, order: Order) {
    event.kind == PaidEvent && order.provider == provider && AmountMatches(event, order)
  }

  function Clip(s: string): string {
    if |s| > 128 then s[..128] else s
  }

  /** Raise quota and paid_quota by the order's locked amount and record it. */
  function CreditOrder(db: DB, userId: nat, amount: int, id: nat, now: int): Outcome {
    if userId >= |db.users| then Abort(UserMissing)
    else
      var u := db.users[userId];
      Post(db.(users := db.users[userId := u.(paidQuota := u.paidQuota + amount)]),
           userId, amount, Topup, OrderLink(id), now)
  }

  /** Phase 3: the conditional created -> paid update, then the credit from the stale copy. */
  function FinalizePaid(db: DB, event: Event, order: Order, now: int): Outcome {
    var id := event.outTradeNo;
    if id >= |db.orders| || db.orders[id].status != Created then Abort(TopupDuplicate)
    else
      var paid := db.orders[id].(status := Paid, tradeNo := Clip(event.externalTradeNo), paidAt := Some(now));
      CreditOrder(db.(orders := db.orders[id := paid]), order.userId, order.amountMicro, id, now)
  }

  // --- Manual mark-paid -------------------------------------------------------------

  /** The mark-paid transaction; owner is the user id in the stale copy. */
  function MarkPaid(db: DB, id: nat, owner: nat, externalRef: string, now: int): Outcome {
    if owner >= |db.users| then Abort(UserMissing)
    else if id >= |db.orders| then Abort(RowMissing)
    else
      var order := db.orders[id];
      if order.status != Created then Abort(AdminMarkRaced)
      else if IsRepeat(db, MANUAL_PROVIDER, externalRef) then Abort(ManualRefDuplicate)
      else
        var paid := order.(status := Paid, tradeNo := externalRef, paidAt := Some(now));
        CreditOrder(StoreReceipt(db, MANUAL_PROVIDER, externalRef).(orders := db.orders[id := paid]),
                    order.userId, order.amountMicro, id, now)
  }

  // --- Partial refund ----------------------------------------------------------------

  predicate RefUsed(refunds: seq<Refund>, externalRef: string) {
    exists i :: 0 <= i < |refunds| && refunds[i].externalRef == externalRef
  }

  /** A paid subscription of this user that is not refunded yet. */
  predicate HasUnrefundedSub(subs: seq<Sub>, userId: nat) {
    exists i :: 0 <= i < |subs| && subs[i].userId == userId && subs[i].status != SubRefunded && !subs[i].granted
  }

  /** 0 asks for everything that is left. */
  function RefundFen(order: Order, requestedFen: int): int {
    if requestedFen > 0 then requestedFen else order.moneyFen - order.refundedFen
  }

  /** This refund's share, or None where the handler answers "amount invalid". */
  function RefundShare(order: Order, fen: int): Option<int> {
    if fen <= 0 || fen > order.moneyFen - order.refundedFen then None
    else
      var before :- Prorated(order.amountMicro, order.moneyFen, order.refundedFen);
      var after :- Prorated(order.amountMicro, order.moneyFen, order.refundedFen + fen);
      if after < before then None else Some(after - before)
  }

  function Saturating(paidQuota: int, amount: int): int {
    if paidQuota >= amount then paidQuota - amount else 0
  }

  /** The guarded order update and everything that goes with it. */
  function RefundWrites(db: DB, id: nat, owner: nat, fen: int, micro: int, reclaim: bool, externalRef: string,
                        now: int): Outcome
    requires id < |db.orders| && owner < |db.users|
  {
    var order := db.orders[id];
    if order.status != Paid then Abort(AdminMarkRaced)
    else
      var refunded := order.refundedFen + fen;
      var order' := order.(refundedFen := refunded,
                           status := if refunded == order.moneyFen then Refunded else Paid,
                           refundNo := externalRef);
      var u := db.users[owner];
      var db1 := db.(orders := db.orders[id := order'],
                     users := db.users[owner := u.(paidQuota := Saturating(u.paidQuota, micro))]);
      var db2 :- Post(db1, owner, if reclaim then -micro else 0, RefundTopup, OrderLink(id), now);
      Commit(db2.(refunds := db.refunds + [Refund(id, externalRef, fen, micro, reclaim)]))
  }

  function RefundOrder(db: DB, id: nat, owner: nat, requestedFen: int, reclaim: bool,
                       externalRef: string, now: int): Outcome
  {
    if owner >= |db.users| then Abort(UserMissing)
    else if RefUsed(db.refunds, externalRef) then Abort(RefundRefDuplicate)
    else if reclaim && HasUnrefundedSub(db.subs, owner) then Abort(ReclaimBlocked)
    else if id >= |db.orders| then Abort(RowMissing)
    else
      var order := db.orders[id];
      var fen := RefundFen(order, requestedFen);
      match RefundShare(order, fen)
      case None => Abort(RefundAmountInvalid)
      case Some(micro) => RefundWrites(db, id, owner, fen, micro, reclaim, externalRef, now)
  }
}
