/** What the top-up handlers decide, in terms of the rows alone: which callback is credited, which
    refund is refused and why, what a created, paid, lapsed or refunded order row looks like. */
module TopupDecisions {
  import opened Options
  import opened Money
  import opened Model
  import opened Ledger
  import opened Topups
  import opened Invariants
  import opened TopupProofs
  import opened Effects
  import opened Runs

  // --- Creation and the sweep ---------------------------------------------------------------

  /** An order is created exactly for an existing user and an amount whose conversion is a positive
      int64: v is what fen buys at the rate, rounded down. It waits, uncredited, with every field
      as requested, and it is the only row that changes. */
  lemma OrderCreated(db: DB, userId: nat, provider: string, fen: int, rate: int, now: int, v: int)
    ensures var o := Order(userId, provider, fen, v, rate, Created, 0, "", "", None, now);
            CreateOrder(db, userId, provider, fen, rate, now) == Commit(db.(orders := db.orders + [o]))
            <==> && userId < |db.users| && fen > 0 && rate > 0 && 0 < v <= MAX_INT64
                 && rate * v <= fen * 10_000_000_000 < rate * (v + 1)
    ensures CreateOrder(db, userId, provider, fen, rate, now).Commit? ==>
              |CreateOrder(db, userId, provider, fen, rate, now).db.orders| == |db.orders| + 1
  {
    hide UsdMicroFromFen;
    ConversionIsFloor(fen, rate, v);
    if CreateOrder(db, userId, provider, fen, rate, now).Commit? {
      var added := CreateOrder(db, userId, provider, fen, rate, now).db.orders;
      assert added[|db.orders|].amountMicro == UsdMicroFromFen(fen, rate).value;
    }
    LastOrder(db.orders, Order(userId, provider, fen, v, rate, Created, 0, "", "", None, now));
  }

  lemma LastOrder(orders: seq<Order>, o: Order)
    ensures (orders + [o])[|orders|] == o
  {
  }

  /** The sweep cancels exactly the waiting orders created before now minus the limit: as many
      minutes as configured if these are at least 5, else 30. */
  lemma SweepExactly(db: DB, ttlMinutes: Option<int>, now: int, i: nat)
    requires i < |db.orders|
    ensures var minutes := if ttlMinutes.Some? && ttlMinutes.value >= 5 then ttlMinutes.value else 30;
            var db' := LapseOrders(db, ttlMinutes, now);
            && db' == db.(orders := db'.orders) && |db'.orders| == |db.orders|
            && (db'.orders[i] != db.orders[i] <==>
                  db.orders[i].status == Created && db.orders[i].createdAt + minutes * 60_000_000 < now)
            && (db'.orders[i] != db.orders[i] ==> db'.orders[i] == db.orders[i].(status := OrderCanceled))
  {
  }

  // --- Callbacks ------------------------------------------------------------------------------

  /** In every run a callback between its order read and its credit is a paid one of the order's own
      provider, for exactly the fen the order was created with, or exactly its locked micro-USD. */
  lemma AdmittedPaysExactly(linkIndex: bool, steps: seq<Step>, slot: nat)
    requires slot in Run(linkIndex, steps).slots && Run(linkIndex, steps).slots[slot].HookAdmitted?
    ensures var s := Run(linkIndex, steps);
            var event := s.slots[slot].event;
            && event.kind == PaidEvent && event.outTradeNo < |s.db.orders|
            && var o := s.db.orders[event.outTradeNo];
               && o.provider == s.slots[slot].provider
               && (|| (event.amountKind == FenCny && event.amountRaw == o.moneyFen)
                   || (event.amountKind == MicroUsd && event.amountRaw == o.amountMicro))
  {
    hide InvUpTo, Run;
    Reachable(linkIndex, steps);
    assert Fits(Run(linkIndex, steps).db, Run(linkIndex, steps).slots[slot]);
  }

  /** What makes a callback worth a credit, from the tables alone. */
  ghost predicate PaysFor(db: DB, provider: string, event: Event) {
    && event.kind == PaidEvent && event.outTradeNo < |db.orders|
    && var o := db.orders[event.outTradeNo];
       && o.provider == provider
       && (|| (event.amountKind == FenCny && event.amountRaw == o.moneyFen)
           || (event.amountKind == MicroUsd && event.amountRaw == o.amountMicro))
  }

  /** The order read: it passes the callback on with the current row if and only if it pays for that
      order, whatever the state, and it changes nothing else. */
  lemma LookupExactly(s: Sys, slot: nat, env: Env)
    requires slot in s.slots && s.slots[slot].HookPaid? && s.slots[slot].event.kind == PaidEvent
    ensures var work := s.slots[slot];
            var s' := Apply(s, Finish(slot, env));
            && s'.db == s.db
            && (slot in s'.slots <==> PaysFor(s.db, work.provider, work.event))
            && (slot in s'.slots ==>
                  s'.slots == s.slots[slot := HookAdmitted(work.provider, work.event,
                                                           s.db.orders[work.event.outTradeNo])])
            && (slot !in s'.slots ==> s'.slots == s.slots - {slot})
  {
  }

  /** The receipt: a nonce seen before changes nothing; a fresh one is stored, alone, and only a paid
      event goes on. */
  lemma ReceiptExactly(s: Sys, slot: nat, provider: string, event: Event)
    requires slot !in s.slots
    ensures var s' := Apply(s, Receive(slot, provider, event));
            && (s' == s <==> ReceiptKey(provider, event.nonce) in s.db.receipts)
            && (s' != s ==>
                  && s'.db == s.db.(receipts := s.db.receipts + {ReceiptKey(provider, event.nonce)})
                  && s'.slots == if event.kind == PaidEvent then s.slots[slot := HookPaid(provider, event)]
                                 else s.slots)
  {
  }

  /** The row of a credited order: paid now, with the first 128 characters of the provider's number. */
  ghost predicate PaidRow(o: Order, o': Order, tradeNo: string, now: int) {
    && o' == o.(status := Paid, paidAt := Some(now), tradeNo := o'.tradeNo)
    && o'.tradeNo <= tradeNo && |o'.tradeNo| == if |tradeNo| < 128 then |tradeNo| else 128
  }

  lemma CreditExactly(db: DB, event: Event, copy: Order, now: int)
    requires Inv(db) && OrderCopy(db, event.outTradeNo, copy)
    ensures var id := event.outTradeNo;
            match FinalizePaid(db, event, copy, now)
            case Abort(_) => db.orders[id].status != Created
            case Commit(db') =>
              && db.orders[id].status == Created
              && |db'.orders| == |db.orders| && db'.orders == db.orders[id := db'.orders[id]]
              && PaidRow(db.orders[id], db'.orders[id], event.externalTradeNo, now)
              && db' == db.(orders := db'.orders, users := db'.users, entries := db'.entries)
              && UserMoved(db, db', db.orders[id].userId, db.orders[id].amountMicro,
                           db.users[db.orders[id].userId].paidQuota + db.orders[id].amountMicro)
  {
    hide InvUpTo, Inv;
    FinalizeCommits(db, event, copy, now);
    if FinalizePaid(db, event, copy, now).Commit? {
      FinalizeMoves(db, event, copy, now);
    }
  }

  /** A callback that meets no other handler between its three phases: from any reachable state the
      order it names is credited if and only if its nonce is new, it pays for the order exactly and the
      order still waits. Then the owner gains the locked amount, once; otherwise at most the receipt
      is stored. */
  lemma CallbackCredits(linkIndex: bool, steps: seq<Step>, slot: nat, provider: string, event: Event, env: Env)
    requires slot !in Run(linkIndex, steps).slots
    ensures var s := Run(linkIndex, steps);
            var db' := Apply(Apply(Apply(s, Receive(slot, provider, event)), Finish(slot, env)), Finish(slot, env)).db;
            var key := ReceiptKey(provider, event.nonce);
            var id := event.outTradeNo;
            if key !in s.db.receipts && PaysFor(s.db, provider, event) && s.db.orders[id].status == Created then
              && |db'.orders| == |s.db.orders|
              && PaidRow(s.db.orders[id], db'.orders[id], event.externalTradeNo, env.now)
              && UserMoved(s.db, db', s.db.orders[id].userId, s.db.orders[id].amountMicro,
                           s.db.users[s.db.orders[id].userId].paidQuota + s.db.orders[id].amountMicro)
              && db'.receipts == s.db.receipts + {key}
            else db' == s.db.(receipts := s.db.receipts + {key})
  {
    hide InvUpTo, Run, Apply, PaysFor, UserMoved, PaidRow, FinalizePaid;
    var s := Run(linkIndex, steps);
    Reachable(linkIndex, steps);
    ReceiptExactly(s, slot, provider, event);
    var s1 := Apply(s, Receive(slot, provider, event));
    StepKeeps(s, Receive(slot, provider, event));
    if slot in s1.slots {
      LookupExactly(s1, slot, env);
      var s2 := Apply(s1, Finish(slot, env));
      SameOrdersPay(s.db, s1.db, provider, event);
      if slot in s2.slots {
        AdmittedCopy(s2, slot, provider, event);
        FinishAdmitted(s2, slot, env);
        CreditExactly(s2.db, event, s2.slots[slot].copy, env.now);
        OrderKnown(s2.db, event.outTradeNo);
        SameMovement(s.db, s2.db, FinalizePaid(s2.db, event, s2.slots[slot].copy, env.now).After(s2.db), event);
      } else {
        FinishNothing(s2, slot, env);
      }
    } else {
      FinishNothing(s1, slot, env);
      PaidOnly(s.db, provider, event);
    }
    var key := ReceiptKey(provider, event.nonce);
    assert key in s.db.receipts ==> s.db.receipts + {key} == s.db.receipts;
  }

  lemma SameOrdersPay(db: DB, db1: DB, provider: string, event: Event)
    requires db1.orders == db.orders
    ensures PaysFor(db1, provider, event) == PaysFor(db, provider, event)
    ensures PaysFor(db, provider, event) ==> event.outTradeNo < |db.orders|
  {
  }

  lemma PaidOnly(db: DB, provider: string, event: Event)
    ensures PaysFor(db, provider, event) ==> event.kind == PaidEvent
  {
  }

  lemma AdmittedCopy(s: Sys, slot: nat, provider: string, event: Event)
    requires slot in s.slots && event.outTradeNo < |s.db.orders|
    requires s.slots[slot] == HookAdmitted(provider, event, s.db.orders[event.outTradeNo])
    ensures OrderCopy(s.db, event.outTradeNo, s.slots[slot].copy)
  {
  }

  lemma FinishAdmitted(s: Sys, slot: nat, env: Env)
    requires slot in s.slots && s.slots[slot].HookAdmitted?
    ensures Apply(s, Finish(slot, env)).db
            == FinalizePaid(s.db, s.slots[slot].event, s.slots[slot].copy, env.now).After(s.db)
  {
    hide FinalizePaid;
  }

  lemma FinishNothing(s: Sys, slot: nat, env: Env)
    requires slot !in s.slots
    ensures Apply(s, Finish(slot, env)) == s
  {
  }

  lemma SameMovement(db: DB, db1: DB, db': DB, event: Event)
    requires db1 == db.(receipts := db1.receipts) && event.outTradeNo < |db.orders|
    requires db.orders[event.outTradeNo].userId < |db.users|
    ensures var o := db.orders[event.outTradeNo];
            var paid := db.users[o.userId].paidQuota + o.amountMicro;
            UserMoved(db1, db', o.userId, o.amountMicro, paid) == UserMoved(db, db', o.userId, o.amountMicro, paid)
  {
  }

  // --- Manual payments --------------------------------------------------------------------------

  /** A manual payment is refused for a missing user or order, for an order that no longer waits, and
      for a reference used before, in this order; otherwise the order's owner is credited, whoever
      the stale copy names. */
  lemma ManualPaymentExactly(db: DB, id: nat, owner: nat, externalRef: string, now: int)
    requires Inv(db)
    ensures match MarkPaid(db, id, owner, externalRef, now)
            case Abort(why) =>
              why == if owner >= |db.users| then UserMissing
                     else if id >= |db.orders| then RowMissing
                     else if db.orders[id].status != Created then AdminMarkRaced
                     else ManualRefDuplicate
            case Commit(db') =>
              && owner < |db.users| && id < |db.orders| && db.orders[id].status == Created
              && ReceiptKey("manual_paid", externalRef) !in db.receipts
              && db'.receipts == db.receipts + {ReceiptKey("manual_paid", externalRef)}
              && db'.orders == db.orders[id := db.orders[id].(status := Paid, tradeNo := externalRef,
                                                              paidAt := Some(now))]
              && db' == db.(receipts := db'.receipts, orders := db'.orders, users := db'.users, entries := db'.entries)
    ensures owner < |db.users| && id < |db.orders| && db.orders[id].status == Created ==>
              (MarkPaid(db, id, owner, externalRef, now).Abort? <==>
               ReceiptKey("manual_paid", externalRef) in db.receipts)
  {
    hide InvUpTo;
    if owner < |db.users| && id < |db.orders| {
      MarkPaidCommits(db, id, owner, externalRef, now);
    }
  }

  // --- Partial refunds ----------------------------------------------------------------------------

  /** The owner of the order still holds a paid subscription that was not refunded. */
  ghost predicate HoldsPaidSub(subs: seq<Sub>, owner: nat) {
    exists i :: 0 <= i < |subs| && subs[i].userId == owner && !subs[i].granted && subs[i].status != SubRefunded
  }

  /** Why a refund of this order is refused, in the order of the checks: a reference used before; a
      reclaim while the owner holds a paid subscription that was not refunded, granted ones not
      counting; an amount outside (0, what is left], 0 standing for all of it; an order that is not
      paid; and, with the ledger index, an order refunded before. Without a reclaim subscriptions
      play no part. In every other case it commits. */
  lemma RefundRefused(db: DB, id: nat, requestedFen: nat, reclaim: bool, externalRef: string, now: int)
    requires Inv(db) && id < |db.orders|
    ensures var o := db.orders[id];
            var left := o.moneyFen - o.refundedFen;
            var fen := if requestedFen == 0 then left else requestedFen;
            var out := RefundOrder(db, id, o.userId, requestedFen, reclaim, externalRef, now);
            if exists i :: 0 <= i < |db.refunds| && db.refunds[i].externalRef == externalRef then
              out == Abort(RefundRefDuplicate)
            else if reclaim && exists i :: 0 <= i < |db.subs| && db.subs[i].userId == o.userId
                                           && !db.subs[i].granted && db.subs[i].status != SubRefunded then
              out == Abort(ReclaimBlocked)
            else if fen <= 0 || fen > left then out == Abort(RefundAmountInvalid)
            else if o.status != Paid then out == Abort(AdminMarkRaced)
            else if db.linkIndex && o.refundedFen > 0 then out == Abort(BillingLinkDuplicate)
            else out.Commit?
  {
    hide InvUpTo, RefundShare;
    var o := db.orders[id];
    OrderKnown(db, id);
    ShareOfRow(o, RefundFen(o, requestedFen));
    RefundedBefore(db, id);
  }

  /** The rows a refund leaves: the order carries the new total and the reference, and is refunded
      exactly when everything is; one refund row records the fen. */
  lemma RefundRecorded(db: DB, id: nat, requestedFen: nat, reclaim: bool, externalRef: string, now: int, db': DB)
    requires Inv(db) && id < |db.orders|
    requires RefundOrder(db, id, db.orders[id].userId, requestedFen, reclaim, externalRef, now) == Commit(db')
    ensures var o := db.orders[id];
            var fen := if requestedFen == 0 then o.moneyFen - o.refundedFen else requestedFen;
            && db'.orders == db.orders[id := o.(refundedFen := o.refundedFen + fen, refundNo := externalRef,
                                                status := if o.refundedFen + fen == o.moneyFen then Refunded
                                                          else Paid)]
            && |db'.refunds| == |db.refunds| + 1 && db.refunds <= db'.refunds
            && db'.refunds[|db.refunds|]
               == Refund(id, externalRef, fen, db'.refunds[|db.refunds|].amountMicro, reclaim)
            && db' == db.(orders := db'.orders, refunds := db'.refunds, users := db'.users, entries := db'.entries)
  {
    hide InvUpTo, RefundShare, RefUsed, HasUnrefundedSub, Saturating, Count;
    OrderKnown(db, id);
    assert RefundOrder(db, id, db.orders[id].userId, requestedFen, reclaim, externalRef, now)
           == RefundWrites(db, id, db.orders[id].userId, RefundFen(db.orders[id], requestedFen),
                           RefundShare(db.orders[id], RefundFen(db.orders[id], requestedFen)).value, reclaim,
                           externalRef, now);
  }

  /** Over every run: while a user holds a paid subscription that was not refunded, no refund of any
      of that user's orders takes anything out of the quota, whichever admin asks with whatever copy. */
  lemma NoReclaimWhileSubscribed(linkIndex: bool, steps: seq<Step>, slot: nat, env: Env)
    requires var s := Run(linkIndex, steps);
             && slot in s.slots && s.slots[slot].TopupRefund? && s.slots[slot].reclaim
             && HoldsPaidSub(s.db.subs, s.slots[slot].copy.userId)
    ensures Apply(Run(linkIndex, steps), Finish(slot, env)).db == Run(linkIndex, steps).db
  {
    hide InvUpTo, Run, RefundOrder;
    var s := Run(linkIndex, steps);
    Reachable(linkIndex, steps);
    var w := s.slots[slot];
    assert Fits(s.db, w);
    RefundRefused(s.db, w.orderId, w.requestedFen, true, w.refundRef, env.now);
  }

  // --- The reads before the transactions ---------------------------------------------------------

  /** A manual payment is begun exactly on the current row of a waiting order, a refund on that of a paid
      one; a callback never without its receipt. */
  lemma BeginsExactly(s: Sys, slot: nat, id: nat, copy: Order, ref: string, fen: nat, reclaim: bool,
                      provider: string, event: Event)
    requires slot !in s.slots
    ensures slot !in Apply(s, Begin(slot, HookPaid(provider, event))).slots
    ensures slot !in Apply(s, Begin(slot, HookAdmitted(provider, event, copy))).slots
    ensures slot in Apply(s, Begin(slot, ManualPaid(id, copy, ref))).slots
            <==> id < |s.db.orders| && copy == s.db.orders[id] && copy.status == Created
    ensures slot in Apply(s, Begin(slot, TopupRefund(id, copy, fen, reclaim, ref))).slots
            <==> id < |s.db.orders| && copy == s.db.orders[id] && copy.status == Paid
  {
  }

  // --- What happens outside ------------------------------------------------------------------------

  /** Writes by others: metering replaces the usage counters alone, the catalog its two tables alone, and
      an edited user keeps every amount; a handler that gives up leaves the database as it is. */
  lemma OutsideExactly(s: Sys, slot: nat, usage: map<UsageKey, Usage>, packages: seq<Package>, plans: seq<Plan>,
                       userId: nat, ordinary: bool, enabled: bool, env: Env)
    ensures Apply(s, Abandon(slot)) == Sys(s.db, s.slots - {slot})
    ensures Perform(s.db, Meter(usage), env) == Commit(s.db.(usage := usage))
    ensures Perform(s.db, EditCatalog(packages, plans), env) == Commit(s.db.(packages := packages, plans := plans))
    ensures userId < |s.db.users| ==>
              Perform(s.db, EditUser(userId, ordinary, enabled), env)
              == Commit(s.db.(users := s.db.users[userId := s.db.users[userId].(ordinary := ordinary,
                                                                                enabled := enabled)]))
  {
    hide Transact, ReceiveHook, Lookup;
  }
}
