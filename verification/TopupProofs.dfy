/** Every top-up transaction keeps the invariant, and exactly when each one commits. */
module TopupProofs {
  import opened Options
  import opened Money
  import opened Model
  import opened Ledger
  import opened Topups
  import opened Invariants

  // --- Sums over orders ---------------------------------------------------------------

  lemma {:induction false} NetPaidUpdate(orders: seq<Order>, i: nat, o: Order, userId: nat)
    requires i < |orders|
    ensures NetPaid(orders[i := o], userId) == NetPaid(orders, userId) - Held(orders[i], userId) + Held(o, userId)
  {
    var last := |orders| - 1;
    if i == last {
      assert orders[i := o][..last] == orders[..last];
    } else {
      assert orders[i := o][..last] == orders[..last][i := o];
      NetPaidUpdate(orders[..last], i, o, userId);
    }
  }

  lemma HeldNonneg(o: Order, userId: nat)
    requires OrderRow(o)
    ensures Held(o, userId) >= 0
  {
    ProratedRounds(o.amountMicro, o.moneyFen, o.refundedFen);
  }

  lemma {:induction false} NetPaidNonneg(orders: seq<Order>, userId: nat)
    requires forall i: nat :: i < |orders| ==> OrderRow(orders[i])
    ensures NetPaid(orders, userId) >= 0
  {
    if orders != [] {
      var last := |orders| - 1;
      assert OrderRow(orders[last]);
      HeldNonneg(orders[last], userId);
      NetPaidNonneg(orders[..last], userId);
    }
  }

  lemma NetPaidAppend(orders: seq<Order>, o: Order, userId: nat)
    ensures NetPaid(orders + [o], userId) == NetPaid(orders, userId) + Held(o, userId)
  {
    assert (orders + [o])[..|orders|] == orders;
  }

  lemma {:induction false} NoRefundRows(refunds: seq<Refund>, id: nat)
    requires forall k :: 0 <= k < |refunds| ==> refunds[k].orderId != id
    ensures FenSum(refunds, id) == 0 && MicroSum(refunds, id) == 0 && RefundRows(refunds, id) == 0
  {
    if refunds != [] {
      NoRefundRows(refunds[..|refunds| - 1], id);
    }
  }

  /** Refund rows exist exactly when some fen was refunded. */
  lemma {:induction false} RowsMeanFen(refunds: seq<Refund>, id: nat)
    requires forall k :: 0 <= k < |refunds| ==> refunds[k].amountFen > 0
    ensures FenSum(refunds, id) >= 0
    ensures FenSum(refunds, id) > 0 <==> RefundRows(refunds, id) > 0
  {
    if refunds != [] {
      RowsMeanFen(refunds[..|refunds| - 1], id);
    }
  }

  lemma OrderKnown(db: DB, id: nat)
    requires Inv(db) && id < |db.orders|
    ensures OrderRow(db.orders[id]) && db.orders[id].userId < |db.users|
  {
  }

  lemma IndexFrame(db: DB, db': DB)
    requires IndexOk(db) && db'.entries == db.entries && db'.linkIndex == db.linkIndex
    ensures IndexOk(db')
  {
  }

  // --- Creation and status writes -------------------------------------------------------

  lemma Uncounted(entries: seq<Entry>, kind: Kind, link: Link)
    requires forall k :: 0 <= k < |entries| && entries[k].kind == kind ==> entries[k].link != link
    ensures Count(entries, kind, link) == 0
  {
    if Count(entries, kind, link) > 0 {
      CountedExists(entries, kind, link);
    }
  }

  lemma CreateOrderKeeps(db: DB, userId: nat, provider: string, fen: int, rate: int, now: int)
    requires Inv(db)
    ensures var out := CreateOrder(db, userId, provider, fen, rate, now); out.Commit? ==> Inv(out.db)
  {
    hide InvUpTo, UsdMicroFromFen;
    var out := CreateOrder(db, userId, provider, fen, rate, now);
    if out.Commit? {
      var o := out.db.orders[|db.orders|];
      ConversionIsFloor(fen, rate, o.amountMicro);
      ProratedRounds(o.amountMicro, o.moneyFen, 0);
      AddedOrderKeeps(db, o);
      assert out.db == db.(orders := db.orders + [o]);
    }
  }

  lemma AddedOrderKeeps(db: DB, o: Order)
    requires Inv(db) && OrderRow(o) && o.paidAt == None && RefundedMicro(o) == 0 && o.userId < |db.users|
    ensures Inv(db.(orders := db.orders + [o]))
  {
    hide Balanced, OrdersOk, RefundsOk, PaidOk, SubsUpTo, TotalsUpTo, StacksOk, CouponsOk, ReconsOk, OverdraftOk,
         LinksOk, AmountsOk, IndexOk, OrderRow;
    var db' := db.(orders := db.orders + [o]);
    NewOrderUnknown(db);
    OrdersAppend(db.orders, db.refunds, db.entries, o);
    PaidAppend(db.users, db.orders, o);
    LinksFrame(db, db');
    IndexFrame(db, db');
  }

  lemma NewOrderUnknown(db: DB)
    requires LinksOk(db) && RefundsOk(db.orders, db.refunds)
    ensures Count(db.entries, Topup, OrderLink(|db.orders|)) == 0
    ensures Count(db.entries, RefundTopup, OrderLink(|db.orders|)) == 0
    ensures FenSum(db.refunds, |db.orders|) == 0 && MicroSum(db.refunds, |db.orders|) == 0
    ensures RefundRows(db.refunds, |db.orders|) == 0
  {
    var id := |db.orders|;
    forall k | 0 <= k < |db.entries| ensures db.entries[k].link != OrderLink(id) {
      assert LinkInRange(db, db.entries[k].link);
    }
    Uncounted(db.entries, Topup, OrderLink(id));
    Uncounted(db.entries, RefundTopup, OrderLink(id));
    NoRefundRows(db.refunds, id);
  }

  lemma OrdersAppend(orders: seq<Order>, refunds: seq<Refund>, entries: seq<Entry>, o: Order)
    requires OrdersOk(orders, refunds, entries) && RefundsOk(orders, refunds)
    requires OrderRow(o) && o.paidAt == None && RefundedMicro(o) == 0
    requires Count(entries, Topup, OrderLink(|orders|)) == 0 && Count(entries, RefundTopup, OrderLink(|orders|)) == 0
    requires FenSum(refunds, |orders|) == 0 && MicroSum(refunds, |orders|) == 0 && RefundRows(refunds, |orders|) == 0
    ensures OrdersOk(orders + [o], refunds, entries) && RefundsOk(orders + [o], refunds)
  {
    forall k | 0 <= k < |entries| && entries[k].kind == Topup
      ensures TopupEntryOf(entries[k], orders + [o])
    {
      assert TopupEntryOf(entries[k], orders);
    }
    forall k | 0 <= k < |entries| && entries[k].kind == RefundTopup
      ensures RefundEntryOf(entries[k], orders + [o])
    {
      assert RefundEntryOf(entries[k], orders);
    }
  }

  lemma PaidAppend(users: seq<User>, orders: seq<Order>, o: Order)
    requires PaidOk(users, orders) && o.paidAt == None
    ensures PaidOk(users, orders + [o])
  {
    forall u: nat | u < |users| ensures 0 <= users[u].paidQuota <= NetPaid(orders + [o], u) {
      NetPaidAppend(orders, o, u);
    }
  }

  /** Orders whose status and trade number may differ, still good rows: what was paid, credited
      and refunded is the same. */
  ghost predicate SameBooks(orders: seq<Order>, orders': seq<Order>) {
    && |orders'| == |orders|
    && (forall i :: 0 <= i < |orders| ==>
          OrderRow(orders'[i]) && orders'[i] == orders[i].(status := orders'[i].status, tradeNo := orders'[i].tradeNo))
  }

  lemma BooksOk(orders: seq<Order>, orders': seq<Order>, refunds: seq<Refund>, entries: seq<Entry>)
    requires OrdersOk(orders, refunds, entries) && RefundsOk(orders, refunds) && SameBooks(orders, orders')
    ensures OrdersOk(orders', refunds, entries) && RefundsOk(orders', refunds)
  {
    forall k | 0 <= k < |entries| && entries[k].kind == Topup
      ensures TopupEntryOf(entries[k], orders')
    {
      assert TopupEntryOf(entries[k], orders);
    }
    forall k | 0 <= k < |entries| && entries[k].kind == RefundTopup
      ensures RefundEntryOf(entries[k], orders')
    {
      assert RefundEntryOf(entries[k], orders);
    }
  }

  lemma {:induction false} BooksNet(orders: seq<Order>, orders': seq<Order>, userId: nat)
    requires SameBooks(orders, orders')
    ensures NetPaid(orders', userId) == NetPaid(orders, userId)
  {
    if orders != [] {
      BooksNet(orders[..|orders| - 1], orders'[..|orders| - 1], userId);
    }
  }

  lemma BooksPaid(users: seq<User>, orders: seq<Order>, orders': seq<Order>)
    requires PaidOk(users, orders) && SameBooks(orders, orders')
    ensures PaidOk(users, orders')
  {
    forall u: nat ensures NetPaid(orders', u) == NetPaid(orders, u) {
      BooksNet(orders, orders', u);
    }
  }

  lemma BooksKeep(db: DB, orders': seq<Order>)
    requires Inv(db) && SameBooks(db.orders, orders')
    ensures Inv(db.(orders := orders'))
  {
    hide Balanced, OrdersOk, RefundsOk, PaidOk, SubsUpTo, TotalsUpTo, StacksOk, CouponsOk, ReconsOk, OverdraftOk,
         LinksOk, AmountsOk, IndexOk, OrderRow;
    BooksOk(db.orders, orders', db.refunds, db.entries);
    BooksPaid(db.users, db.orders, orders');
    LinksFrame(db, db.(orders := orders'));
    IndexFrame(db, db.(orders := orders'));
  }

  lemma OrderFieldsKeep(db: DB, id: nat, o: Order)
    requires Inv(db) && id < |db.orders| && OrderRow(o)
    requires o.(status := db.orders[id].status, tradeNo := db.orders[id].tradeNo) == db.orders[id]
    ensures Inv(db.(orders := db.orders[id := o]))
  {
    hide InvUpTo, OrderRow;
    var orders' := db.orders[id := o];
    forall i: nat | i < |orders'| ensures OrderRow(orders'[i]) {
      OrderKnown(db, i);
    }
    BooksKeep(db, orders');
  }

  /** Cancelling the orders that waited too long keeps the invariant; orders that were paid, ever,
      are not touched. */
  lemma LapseKeeps(db: DB, ttlMinutes: Option<int>, now: int)
    requires Inv(db)
    ensures Inv(LapseOrders(db, ttlMinutes, now))
    ensures forall i :: 0 <= i < |db.orders| && db.orders[i].paidAt.Some? ==>
              LapseOrders(db, ttlMinutes, now).orders[i] == db.orders[i]
  {
    hide InvUpTo;
    var orders' := LapseOrders(db, ttlMinutes, now).orders;
    forall i: nat | i < |db.orders|
      ensures OrderRow(orders'[i])
      ensures db.orders[i].status == Created ==> db.orders[i].paidAt == None
    {
      OrderKnown(db, i);
    }
    BooksKeep(db, orders');
  }

  lemma FailOrderKeeps(db: DB, id: nat)
    requires Inv(db)
    ensures var out := FailOrder(db, id); out.Commit? ==> Inv(out.db)
  {
    hide InvUpTo;
    if id < |db.orders| {
      OrderKnown(db, id);
      OrderFieldsKeep(db, id, db.orders[id].(status := Failed));
    }
  }

  lemma GatewayReplyKeeps(db: DB, id: nat, tradeNo: string)
    requires Inv(db)
    ensures var out := StoreGatewayReply(db, id, tradeNo); out.Commit? ==> Inv(out.db)
  {
    hide InvUpTo;
    if id < |db.orders| {
      OrderKnown(db, id);
      OrderFieldsKeep(db, id, db.orders[id].(tradeNo := tradeNo));
    }
  }

  lemma ReceiptKeeps(db: DB, provider: string, nonce: string)
    requires Inv(db)
    ensures Inv(StoreReceipt(db, provider, nonce))
  {
    var db' := StoreReceipt(db, provider, nonce);
    LinksFrame(db, db');
  }

  // --- Crediting an order ------------------------------------------------------------------

  /** The order row a credit leaves behind. */
  ghost predicate CreditedRow(o: Order, o': Order, now: int) {
    && o.status == Created
    && o' == o.(status := Paid, tradeNo := o'.tradeNo, paidAt := Some(now))
  }

  lemma CreditOrders(orders: seq<Order>, refunds: seq<Refund>, entries: seq<Entry>, id: nat, o': Order,
                     now: int, e: Entry)
    requires OrdersOk(orders, refunds, entries) && id < |orders| && CreditedRow(orders[id], o', now)
    requires e.kind == Topup && e.link == OrderLink(id) && e.userId == o'.userId && e.amount == o'.amountMicro
    ensures OrdersOk(orders[id := o'], refunds, entries + [e])
  {
    hide Count;
    Appended(entries, e);
    assert OrderRow(orders[id]);
    CreditEntries(orders, refunds, entries, id, o', now, e);
  }

  lemma CreditEntries(orders: seq<Order>, refunds: seq<Refund>, entries: seq<Entry>, id: nat, o': Order,
                      now: int, e: Entry)
    requires OrdersOk(orders, refunds, entries) && id < |orders| && CreditedRow(orders[id], o', now)
    requires e.kind == Topup && e.link == OrderLink(id) && e.userId == o'.userId && e.amount == o'.amountMicro
    ensures var orders' := orders[id := o'];
            var entries' := entries + [e];
            && (forall k :: 0 <= k < |entries'| && entries'[k].kind == Topup ==> TopupEntryOf(entries'[k], orders'))
            && (forall k :: 0 <= k < |entries'| && entries'[k].kind == RefundTopup ==>
                  RefundEntryOf(entries'[k], orders'))
  {
    hide OrderRow, Count, RefundRows;
    var orders' := orders[id := o'];
    var entries' := entries + [e];
    forall k | 0 <= k < |entries'| && entries'[k].kind == Topup
      ensures TopupEntryOf(entries'[k], orders')
    {
      assert k < |entries| ==> TopupEntryOf(entries[k], orders);
    }
    forall k | 0 <= k < |entries'| && entries'[k].kind == RefundTopup
      ensures RefundEntryOf(entries'[k], orders')
    {
      assert RefundEntryOf(entries[k], orders);
    }
  }

  lemma CreditRefunds(orders: seq<Order>, refunds: seq<Refund>, id: nat, o': Order, now: int)
    requires RefundsOk(orders, refunds) && id < |orders| && CreditedRow(orders[id], o', now)
    ensures RefundsOk(orders[id := o'], refunds)
  {
  }

  lemma CreditPaid(users: seq<User>, orders: seq<Order>, users': seq<User>, id: nat, o': Order, now: int)
    requires PaidOk(users, orders) && id < |orders| && OrderRow(orders[id])
    requires CreditedRow(orders[id], o', now) && o'.userId < |users| && |users'| == |users|
    requires forall u: nat :: u < |users| ==>
               users'[u].paidQuota == users[u].paidQuota + (if u == o'.userId then o'.amountMicro else 0)
    ensures PaidOk(users', orders[id := o'])
  {
    ProratedRounds(o'.amountMicro, o'.moneyFen, 0);
    forall u: nat | u < |users|
      ensures 0 <= users'[u].paidQuota <= NetPaid(orders[id := o'], u)
    {
      NetPaidUpdate(orders, id, o', u);
    }
  }

  /** Both ways to credit an order keep the invariant. */
  lemma CreditKeeps(db: DB, id: nat, o': Order, now: int)
    requires Inv(db) && id < |db.orders| && CreditedRow(db.orders[id], o', now)
    ensures var out := CreditOrder(db.(orders := db.orders[id := o']), o'.userId, o'.amountMicro, id, now);
            out.Commit? ==> Inv(out.db)
  {
    hide Balanced, OrdersOk, RefundsOk, PaidOk, SubsUpTo, TotalsUpTo, StacksOk, CouponsOk, ReconsOk, OverdraftOk,
         LinksOk, AmountsOk, IndexOk, OrderRow;
    var dbO := db.(orders := db.orders[id := o']);
    var out := CreditOrder(dbO, o'.userId, o'.amountMicro, id, now);
    if out.Commit? {
      var db' := out.db;
      var e := db'.entries[|db.entries|];
      OrderKnown(db, id);
      BalancedPost(db.users, db.entries, db'.users, e);
      CreditOrders(db.orders, db.refunds, db.entries, id, o', now, e);
      CreditRefunds(db.orders, db.refunds, id, o', now);
      CreditPaid(db.users, db.orders, db'.users, id, o', now);
      SubsPost(db.subs, db.entries, |db.subs|, e);
      ReconsPost(db.recons, db.entries, e);
      OverdraftPost(db.users, db.entries, db'.users, e);
      LinksPost(db, db', e);
      IndexPost(db, db', e);
    }
  }

  /** A copy of an order row taken in some earlier state: its identity fields still agree. */
  ghost predicate SameOrder(copy: Order, row: Order) {
    && copy.userId == row.userId && copy.provider == row.provider
    && copy.moneyFen == row.moneyFen && copy.amountMicro == row.amountMicro
    && copy.rateMicros == row.rateMicros
  }

  ghost predicate OrderCopy(db: DB, id: nat, copy: Order) {
    id < |db.orders| && SameOrder(copy, db.orders[id])
  }

  lemma FinalizeKeeps(db: DB, event: Event, copy: Order, now: int)
    requires Inv(db) && OrderCopy(db, event.outTradeNo, copy)
    ensures var out := FinalizePaid(db, event, copy, now); out.Commit? ==> Inv(out.db)
  {
    var id := event.outTradeNo;
    if db.orders[id].status == Created {
      var o' := db.orders[id].(status := Paid, tradeNo := Clip(event.externalTradeNo), paidAt := Some(now));
      CreditKeeps(db, id, o', now);
    }
  }

  lemma UncreditedOrder(db: DB, id: nat)
    requires Inv(db) && id < |db.orders|
    ensures Count(db.entries, Topup, OrderLink(id)) == if db.orders[id].paidAt.Some? then 1 else 0
  {
  }

  /** The webhook transaction commits exactly when the order is still waiting. */
  lemma FinalizeCommits(db: DB, event: Event, copy: Order, now: int)
    requires Inv(db) && OrderCopy(db, event.outTradeNo, copy)
    ensures FinalizePaid(db, event, copy, now).Commit? <==> db.orders[event.outTradeNo].status == Created
    ensures FinalizePaid(db, event, copy, now).Abort? ==> FinalizePaid(db, event, copy, now).why == TopupDuplicate
  {
    hide InvUpTo;
    OrderKnown(db, event.outTradeNo);
    UncreditedOrder(db, event.outTradeNo);
  }

  lemma MarkPaidKeeps(db: DB, id: nat, owner: nat, externalRef: string, now: int)
    requires Inv(db)
    ensures var out := MarkPaid(db, id, owner, externalRef, now); out.Commit? ==> Inv(out.db)
  {
    hide InvUpTo;
    if id < |db.orders| && db.orders[id].status == Created {
      ReceiptKeeps(db, MANUAL_PROVIDER, externalRef);
      var dbR := StoreReceipt(db, MANUAL_PROVIDER, externalRef);
      var o' := db.orders[id].(status := Paid, tradeNo := externalRef, paidAt := Some(now));
      CreditKeeps(dbR, id, o', now);
    }
  }

  lemma MarkPaidCommits(db: DB, id: nat, owner: nat, externalRef: string, now: int)
    requires Inv(db) && owner < |db.users| && id < |db.orders|
    ensures MarkPaid(db, id, owner, externalRef, now).Commit? <==>
            db.orders[id].status == Created && ReceiptKey(MANUAL_PROVIDER, externalRef) !in db.receipts
  {
    hide InvUpTo;
    OrderKnown(db, id);
    UncreditedOrder(db, id);
  }

  // --- Refunding an order --------------------------------------------------------------------

  /** RefundShare succeeds exactly on 0 < fen <= remaining, with the share of the new total. */
  lemma ShareOfRow(o: Order, fen: int)
    requires OrderRow(o)
    ensures RefundShare(o, fen).Some? <==> 0 < fen <= o.moneyFen - o.refundedFen
    ensures RefundShare(o, fen).Some? ==>
              && RefundShare(o, fen).value >= 0
              && RefundedMicro(o.(refundedFen := o.refundedFen + fen)) == RefundedMicro(o) + RefundShare(o, fen).value
  {
    if 0 < fen <= o.moneyFen - o.refundedFen {
      ProratedMonotone(o.amountMicro, o.moneyFen, o.refundedFen, o.refundedFen + fen);
    }
  }

  /** The order row a refund of fen leaves behind. */
  ghost predicate RefundedRow(o: Order, o': Order, fen: int) {
    && o.status == Paid && 0 < fen <= o.moneyFen - o.refundedFen
    && o' == o.(refundedFen := o.refundedFen + fen,
                status := if o.refundedFen + fen == o.moneyFen then Refunded else Paid,
                refundNo := o'.refundNo)
  }

  lemma RefundOrders(orders: seq<Order>, refunds: seq<Refund>, entries: seq<Entry>, id: nat, o': Order,
                     r: Refund, e: Entry)
    requires OrdersOk(orders, refunds, entries)
    requires id < |orders| && RefundedRow(orders[id], o', r.amountFen) && r.orderId == id
    requires e.kind == RefundTopup && e.link == OrderLink(id) && e.userId == o'.userId && e.amount <= 0
    ensures OrdersOk(orders[id := o'], refunds + [r], entries + [e])
  {
    Appended(entries, e);
    RefundAppended(refunds, r);
    assert OrderRow(orders[id]);
    var orders' := orders[id := o'];
    var entries' := entries + [e];
    forall k | 0 <= k < |entries'| && entries'[k].kind == Topup
      ensures TopupEntryOf(entries'[k], orders')
    {
      assert TopupEntryOf(entries[k], orders);
    }
    forall k | 0 <= k < |entries'| && entries'[k].kind == RefundTopup
      ensures RefundEntryOf(entries'[k], orders')
    {
      assert k < |entries| ==> RefundEntryOf(entries[k], orders);
    }
  }

  lemma RefundRefunds(orders: seq<Order>, refunds: seq<Refund>, id: nat, o': Order, r: Refund)
    requires RefundsOk(orders, refunds) && id < |orders| && OrderRow(orders[id])
    requires RefundedRow(orders[id], o', r.amountFen) && r.orderId == id
    requires RefundShare(orders[id], r.amountFen) == Some(r.amountMicro)
    requires !RefUsed(refunds, r.externalRef)
    ensures RefundsOk(orders[id := o'], refunds + [r])
  {
    RefundAppended(refunds, r);
    ShareOfRow(orders[id], r.amountFen);
    assert RefundedMicro(o') == RefundedMicro(orders[id].(refundedFen := o'.refundedFen));
    var refunds' := refunds + [r];
    forall j, k | 0 <= j < k < |refunds'| ensures refunds'[j].externalRef != refunds'[k].externalRef {
    }
  }

  lemma RefundPaid(users: seq<User>, orders: seq<Order>, users': seq<User>, id: nat, o': Order, r: Refund)
    requires PaidOk(users, orders) && id < |orders|
    requires forall i: nat :: i < |orders| ==> OrderRow(orders[i])
    requires RefundedRow(orders[id], o', r.amountFen) && |users'| == |users| && o'.userId < |users|
    requires RefundShare(orders[id], r.amountFen) == Some(r.amountMicro)
    requires forall u: nat :: u < |users| ==>
               users'[u].paidQuota == if u == o'.userId then Saturating(users[u].paidQuota, r.amountMicro)
                                      else users[u].paidQuota
    ensures PaidOk(users', orders[id := o'])
  {
    assert OrderRow(orders[id]);
    ShareOfRow(orders[id], r.amountFen);
    assert RefundedMicro(o') == RefundedMicro(orders[id].(refundedFen := o'.refundedFen));
    var orders' := orders[id := o'];
    forall u: nat | u < |users|
      ensures 0 <= users'[u].paidQuota <= NetPaid(orders', u)
    {
      NetPaidUpdate(orders, id, o', u);
      NetPaidNonneg(orders', u);
    }
  }

  lemma RefundOverdraft(users: seq<User>, entries: seq<Entry>, users': seq<User>, e: Entry)
    requires OverdraftOk(users, entries) && QuotaMoved(users, users', e.userId, e.amount)
    requires e.kind == RefundTopup && e.amount <= 0
    ensures OverdraftOk(users', entries + [e])
  {
    Appended(entries, e);
  }

  /** Which rows a committed refund changes, and how. */
  ghost predicate RefundStep(db: DB, db': DB, id: nat, o': Order, r: Refund, e: Entry) {
    && id < |db.orders| && RefundedRow(db.orders[id], o', r.amountFen) && r.orderId == id
    && RefundShare(db.orders[id], r.amountFen) == Some(r.amountMicro)
    && !RefUsed(db.refunds, r.externalRef)
    && e.kind == RefundTopup && e.link == OrderLink(id) && e.userId == o'.userId
    && e.amount == (if r.reclaim then -r.amountMicro else 0)
    && QuotaMoved(db.users, db'.users, e.userId, e.amount)
    && e.state == Settled && e.balanceAfter == db'.users[e.userId].quota
    && (forall u: nat :: u < |db.users| ==>
          db'.users[u].paidQuota == if u == o'.userId then Saturating(db.users[u].paidQuota, r.amountMicro)
                                    else db.users[u].paidQuota)
    && !LinkTaken(db, RefundTopup, OrderLink(id))
    && db' == db.(orders := db.orders[id := o'], users := db'.users, refunds := db.refunds + [r],
                  entries := db.entries + [e])
  }

  lemma RefundEffect(db: DB, id: nat, owner: nat, requestedFen: int, reclaim: bool, externalRef: string, now: int)
    returns (o': Order, r: Refund, e: Entry)
    requires RefundOrder(db, id, owner, requestedFen, reclaim, externalRef, now).Commit?
    requires id < |db.orders| ==> owner == db.orders[id].userId
    ensures RefundStep(db, RefundOrder(db, id, owner, requestedFen, reclaim, externalRef, now).db, id, o', r, e)
  {
    hide RefundShare, RefundWrites, RefUsed, HasUnrefundedSub;
    var fen := RefundFen(db.orders[id], requestedFen);
    ShareInRange(db.orders[id], fen);
    o', r, e := RefundWritten(db, id, fen, RefundShare(db.orders[id], fen).value, reclaim, externalRef, now);
  }

  lemma ShareInRange(o: Order, fen: int)
    requires RefundShare(o, fen).Some?
    ensures 0 < fen <= o.moneyFen - o.refundedFen
  {
  }

  lemma RefundWritten(db: DB, id: nat, fen: int, micro: int, reclaim: bool, externalRef: string, now: int)
    returns (o': Order, r: Refund, e: Entry)
    requires id < |db.orders| && db.orders[id].userId < |db.users|
    requires RefundWrites(db, id, db.orders[id].userId, fen, micro, reclaim, externalRef, now).Commit?
    requires 0 < fen <= db.orders[id].moneyFen - db.orders[id].refundedFen
    requires RefundShare(db.orders[id], fen) == Some(micro) && !RefUsed(db.refunds, externalRef)
    ensures var db' := RefundWrites(db, id, db.orders[id].userId, fen, micro, reclaim, externalRef, now).db;
            RefundStep(db, db', id, o', r, e)
  {
    hide RefundShare, RefUsed, Saturating, Count;
    var db' := RefundWrites(db, id, db.orders[id].userId, fen, micro, reclaim, externalRef, now).db;
    o', r, e := db'.orders[id], db'.refunds[|db.refunds|], db'.entries[|db.entries|];
  }

  /** A refund row and its entry keep the reclaimed total in step. */
  lemma RefundAmounts(db: DB, db': DB, id: nat, o': Order, r: Refund, e: Entry)
    requires AmountsOk(db) && RefundStep(db, db', id, o', r, e)
    ensures AmountsOk(db')
  {
    hide RefundShare, RefUsed, Saturating, LinkTaken;
    Appended(db.entries, e);
    assert (db.refunds + [r])[..|db.refunds|] == db.refunds;
    forall u: nat ensures Total(db'.entries, u, RefundTopup) == -Reclaimed(db'.refunds, db'.orders, u) {
      ReclaimedFrame(db.refunds, db.orders, db'.orders, u);
    }
  }

  lemma RefundStepKeeps(db: DB, db': DB, id: nat, o': Order, r: Refund, e: Entry)
    requires Inv(db) && RefundStep(db, db', id, o', r, e)
    ensures Inv(db')
  {
    hide Balanced, RefundsOk, PaidOk, SubsUpTo, TotalsUpTo, StacksOk, CouponsOk, ReconsOk, OverdraftOk, LinksOk,
         AmountsOk, IndexOk;
    assert OrderRow(db.orders[id]);
    ShareOfRow(db.orders[id], r.amountFen);
    BalancedPost(db.users, db.entries, db'.users, e);
    RefundOrders(db.orders, db.refunds, db.entries, id, o', r, e);
    RefundRefunds(db.orders, db.refunds, id, o', r);
    RefundPaid(db.users, db.orders, db'.users, id, o', r);
    SubsPost(db.subs, db.entries, |db.subs|, e);
    ReconsPost(db.recons, db.entries, e);
    RefundOverdraft(db.users, db.entries, db'.users, e);
    RefundAmounts(db, db', id, o', r, e);
    LinkAdded(db, db', e);
    IndexPost(db, db', e);
  }

  lemma RefundKeeps(db: DB, id: nat, owner: nat, requestedFen: int, reclaim: bool, externalRef: string, now: int)
    requires Inv(db) && (id < |db.orders| ==> owner == db.orders[id].userId)
    ensures var out := RefundOrder(db, id, owner, requestedFen, reclaim, externalRef, now);
            out.Commit? ==> Inv(out.db)
  {
    var out := RefundOrder(db, id, owner, requestedFen, reclaim, externalRef, now);
    if out.Commit? {
      var o', r, e := RefundEffect(db, id, owner, requestedFen, reclaim, externalRef, now);
      RefundStepKeeps(db, out.db, id, o', r, e);
    }
  }

  /** A refund registration commits exactly under these conditions. With the unique ledger
      index installed the last one asks that this order was never refunded before: a second
      partial refund always rolls back. */
  lemma RefundCommits(db: DB, id: nat, owner: nat, requestedFen: nat, reclaim: bool, externalRef: string, now: int)
    requires Inv(db) && id < |db.orders| && owner == db.orders[id].userId
    ensures RefundOrder(db, id, owner, requestedFen, reclaim, externalRef, now).Commit? <==>
            && db.orders[id].status == Paid
            && requestedFen <= db.orders[id].moneyFen - db.orders[id].refundedFen
            && !RefUsed(db.refunds, externalRef)
            && !(reclaim && HasUnrefundedSub(db.subs, owner))
            && (db.linkIndex ==> db.orders[id].refundedFen == 0)
  {
    hide InvUpTo, RefundShare, RefUsed, HasUnrefundedSub;
    var o := db.orders[id];
    OrderKnown(db, id);
    ShareOfRow(o, RefundFen(o, requestedFen));
    RefundedBefore(db, id);
  }

  /** The refund entries of an order are counted exactly once it was refunded. */
  lemma RefundedBefore(db: DB, id: nat)
    requires Inv(db) && id < |db.orders|
    ensures Count(db.entries, RefundTopup, OrderLink(id)) > 0 <==> db.orders[id].refundedFen > 0
    ensures db.orders[id].refundedFen >= 0
  {
    RowsMeanFen(db.refunds, id);
  }
}
