/** The money guarantees, each for every reachable state or every run. */
module Theorems {
  import opened Options
  import opened Money
  import opened Model
  import opened Ledger
  import opened Topups
  import opened Rewards
  import opened Charges
  import opened Invariants
  import opened TopupProofs
  import opened PurchaseProofs
  import opened SubscriptionProofs
  import opened ChargeProofs
  import opened Evolution
  import opened Runs
  import opened Summary

  /** The database some run has reached. */
  function Reached(linkIndex: bool, steps: seq<Step>): DB {
    Run(linkIndex, steps).db
  }

  lemma ReachedInv(linkIndex: bool, steps: seq<Step>)
    ensures Inv(Reached(linkIndex, steps)) && Reached(linkIndex, steps).linkIndex == linkIndex
  {
    hide InvUpTo, Apply, Fits;
    Reachable(linkIndex, steps);
  }

  // --- The ledger -------------------------------------------------------------------------

  /** The balance recorded by a user's last settled entry, 0 without one. */
  function LastRecorded(entries: seq<Entry>, userId: nat): int {
    if entries == [] then 0
    else
      var e := entries[|entries| - 1];
      if e.userId == userId && e.state == Settled then e.balanceAfter
      else LastRecorded(entries[..|entries| - 1], userId)
  }

  lemma {:induction false} LastIsSum(entries: seq<Entry>, userId: nat)
    requires forall k :: 0 <= k < |entries| && entries[k].state != Settled ==> entries[k].amount == 0
    requires forall k :: 0 <= k < |entries| && entries[k].state == Settled ==>
               entries[k].balanceAfter == Balance(entries[..k + 1], entries[k].userId)
    ensures LastRecorded(entries, userId) == Balance(entries, userId)
  {
    if entries != [] {
      var last := |entries| - 1;
      assert entries[..last + 1] == entries;
      var front := entries[..last];
      forall k | 0 <= k < last && front[k].state == Settled
        ensures front[k].balanceAfter == Balance(front[..k + 1], front[k].userId)
      {
        assert front[..k + 1] == entries[..k + 1];
      }
      LastIsSum(front, userId);
    }
  }

  /** In every reachable state a user's entries, in insertion order, record their running sum;
      the last one equals the quota; entries still to be reconciled have moved nothing. */
  lemma RunningBalance(linkIndex: bool, steps: seq<Step>)
    ensures var db := Reached(linkIndex, steps);
            && (forall u: nat :: u < |db.users| ==>
                  db.users[u].quota == Balance(db.entries, u) == LastRecorded(db.entries, u))
            && (forall k :: 0 <= k < |db.entries| && db.entries[k].state == Settled ==>
                  db.entries[k].balanceAfter == Balance(db.entries[..k + 1], db.entries[k].userId))
            && (forall k :: 0 <= k < |db.entries| && db.entries[k].state != Settled ==> db.entries[k].amount == 0)
  {
    var db := Reached(linkIndex, steps);
    ReachedInv(linkIndex, steps);
    BalancedKnown(db);
    forall u: nat | u < |db.users| ensures Balance(db.entries, u) == LastRecorded(db.entries, u) {
      LastIsSum(db.entries, u);
    }
  }

  /** The settled summary's net change is the quota, and its rows are the totals by kind. */
  lemma SummaryNetIsQuota(linkIndex: bool, steps: seq<Step>, userId: nat, kind: Kind)
    requires userId < |Reached(linkIndex, steps).users|
    ensures var db := Reached(linkIndex, steps);
            && SettledSum(db.entries, userId) == RowsTotal(GroupedByKind(db.entries, userId)) == db.users[userId].quota
            && RowsDistinct(GroupedByKind(db.entries, userId))
            && TotalIn(GroupedByKind(db.entries, userId), kind) == Total(db.entries, userId, kind)
            && CountIn(GroupedByKind(db.entries, userId), kind) == SettledCount(db.entries, userId, kind)
            && MoneyIn(GroupedByKind(db.entries, userId)) - MoneyOut(GroupedByKind(db.entries, userId))
               == db.users[userId].quota
  {
    hide InvUpTo, Run;
    var db := Reached(linkIndex, steps);
    ReachedInv(linkIndex, steps);
    BalancedKnown(db);
    SettledIsBalance(db.entries, userId);
    GroupingKeepsSum(db.entries, userId);
    GroupedExactly(db.entries, userId, kind);
    InMinusOut(GroupedByKind(db.entries, userId));
  }

  lemma BalancedKnown(db: DB)
    requires Inv(db)
    ensures Balanced(db.users, db.entries)
  {
  }

  // --- Top-ups -------------------------------------------------------------------------------

  lemma OrdersKnown(db: DB)
    requires Inv(db)
    ensures OrdersOk(db.orders, db.refunds, db.entries) && RefundsOk(db.orders, db.refunds)
    ensures PaidOk(db.users, db.orders)
  {
  }

  /** However callbacks, nonces and manual payments interleave, an order is credited at most
      once and then with exactly its locked amount to its owner; while it waits it is not
      credited, and once it has left the waiting state it never waits, nor is credited, again. */
  lemma CreditedOnce(linkIndex: bool, steps: seq<Step>, n: nat, id: nat)
    requires n <= |steps| && id < |Reached(linkIndex, steps[..n]).orders|
    ensures var before := Reached(linkIndex, steps[..n]);
            var db := Reached(linkIndex, steps);
            && id < |db.orders| && SameOrder(before.orders[id], db.orders[id])
            && Count(db.entries, Topup, OrderLink(id)) <= 1
            && (db.orders[id].status == Created ==> Count(db.entries, Topup, OrderLink(id)) == 0)
            && (db.orders[id].status == Paid || db.orders[id].status == Refunded ==>
                  Count(db.entries, Topup, OrderLink(id)) == 1)
            && (forall k :: 0 <= k < |db.entries| && db.entries[k].kind == Topup
                            && db.entries[k].link == OrderLink(id) ==>
                  db.entries[k].amount == db.orders[id].amountMicro && db.entries[k].userId == db.orders[id].userId)
            && (before.orders[id].status != Created ==>
                  && db.orders[id].status != Created
                  && Count(db.entries, Topup, OrderLink(id)) == Count(before.entries, Topup, OrderLink(id)))
  {
    hide InvUpTo, Run;
    var before := Reached(linkIndex, steps[..n]);
    var db := Reached(linkIndex, steps);
    ReachedInv(linkIndex, steps);
    ReachedInv(linkIndex, steps[..n]);
    RunEvolves(linkIndex, steps, n);
    OrdersKnown(before);
    OrdersKnown(db);
    assert OrderEvolves(before.orders[id], db.orders[id]);
    assert OrderRow(db.orders[id]);
    forall k | 0 <= k < |db.entries| && db.entries[k].kind == Topup && db.entries[k].link == OrderLink(id)
      ensures db.entries[k].amount == db.orders[id].amountMicro && db.entries[k].userId == db.orders[id].userId
    {
      assert TopupEntryOf(db.entries[k], db.orders);
    }
  }

  /** A callback that is about to credit an order is a paid one from the order's own provider, for
      exactly the amount the order locked, although the order was read earlier. */
  lemma AdmittedMatches(linkIndex: bool, steps: seq<Step>, slot: nat)
    requires slot in Run(linkIndex, steps).slots && Run(linkIndex, steps).slots[slot].HookAdmitted?
    ensures var db := Reached(linkIndex, steps);
            var work := Run(linkIndex, steps).slots[slot];
            && work.event.kind == PaidEvent && work.event.outTradeNo < |db.orders|
            && db.orders[work.event.outTradeNo].provider == work.provider
            && AmountMatches(work.event, db.orders[work.event.outTradeNo])
            && work.copy.amountMicro == db.orders[work.event.outTradeNo].amountMicro
            && work.copy.userId == db.orders[work.event.outTradeNo].userId
  {
    hide InvUpTo, Run;
    Reachable(linkIndex, steps);
    assert Fits(Run(linkIndex, steps).db, Run(linkIndex, steps).slots[slot]);
  }

  /** A provider's nonce is processed once: after a callback arrived, any callback with the same
      nonce changes nothing, even if the first one was never credited. */
  lemma NonceConsumed(linkIndex: bool, steps: seq<Step>, n: nat, provider: string, event: Event, slot: nat,
                      retry: Event)
    requires n < |steps| && steps[n].Receive? && steps[n].provider == provider && steps[n].event == event
    requires retry.nonce == event.nonce
    ensures Apply(Run(linkIndex, steps), Receive(slot, provider, retry)) == Run(linkIndex, steps)
  {
    hide InvUpTo, Apply, Fits;
    var s := Run(linkIndex, steps[..n]);
    assert steps[..n + 1][..n] == steps[..n];
    RunEvolves(linkIndex, steps, n + 1);
    ReceivedKnown(s, steps[n]);
    RepeatIgnored(Run(linkIndex, steps), slot, provider, retry);
  }

  lemma ReceivedKnown(s: Sys, step: Step)
    requires step.Receive?
    ensures ReceiptKey(step.provider, step.event.nonce) in Apply(s, step).db.receipts
  {
  }

  lemma RepeatIgnored(s: Sys, slot: nat, provider: string, event: Event)
    requires ReceiptKey(provider, event.nonce) in s.db.receipts
    ensures Apply(s, Receive(slot, provider, event)) == s
  {
  }

  /** Over every run: once a manual payment committed, its external reference is refused for every
      order, by whichever admin and however much later. */
  lemma ManualReferenceOnce(linkIndex: bool, steps: seq<Step>, n: nat, id: nat, owner: nat, later: int)
    requires n < |steps| && steps[n].Finish?
    requires var s := Run(linkIndex, steps[..n]);
             && steps[n].slot in s.slots && s.slots[steps[n].slot].ManualPaid?
             && Transact(s.db, s.slots[steps[n].slot], steps[n].env).Commit?
    ensures var paid := Run(linkIndex, steps[..n]).slots[steps[n].slot];
            MarkPaid(Reached(linkIndex, steps), id, owner, paid.externalRef, later).Abort?
  {
    hide InvUpTo, Apply, Fits, Transact, Run;
    var s := Run(linkIndex, steps[..n]);
    RunEvolves(linkIndex, steps, n + 1);
    assert steps[..n + 1] == steps[..n] + [steps[n]];
    RunOne(linkIndex, steps[..n], steps[n]);
    ManualReceipt(s, steps[n]);
  }

  lemma ManualReceipt(s: Sys, step: Step)
    requires step.Finish? && step.slot in s.slots && s.slots[step.slot].ManualPaid?
    requires Transact(s.db, s.slots[step.slot], step.env).Commit?
    ensures ReceiptKey(MANUAL_PROVIDER, s.slots[step.slot].externalRef) in Apply(s, step).db.receipts
  {
  }

  /** For any run of refunds by concurrent admins with stale copies: the refunded fen of an order
      are the sum of its refund rows and never exceed what was paid; the micro-USD of the rows
      add up to the prorated total, so to exactly the credited amount once everything is
      refunded, however it was split; no external reference is used twice; and with the ledger
      index installed an order is refunded at most once. */
  lemma RefundsTelescope(linkIndex: bool, steps: seq<Step>)
    ensures var db := Reached(linkIndex, steps);
            && (forall i: nat :: i < |db.orders| ==>
                  var o := db.orders[i];
                  && FenSum(db.refunds, i) == o.refundedFen <= o.moneyFen
                  && Prorated(o.amountMicro, o.moneyFen, o.refundedFen) == Some(MicroSum(db.refunds, i))
                  && 0 <= MicroSum(db.refunds, i) <= o.amountMicro
                  && (o.refundedFen == o.moneyFen ==> MicroSum(db.refunds, i) == o.amountMicro)
                  && (o.status == Refunded ==> o.refundedFen == o.moneyFen)
                  && (linkIndex ==> RefundRows(db.refunds, i) <= 1))
            && (forall j, k :: 0 <= j < k < |db.refunds| ==> db.refunds[j].externalRef != db.refunds[k].externalRef)
  {
    hide InvUpTo, Run;
    var db := Reached(linkIndex, steps);
    ReachedInv(linkIndex, steps);
    OrdersKnown(db);
    forall i: nat | i < |db.orders|
      ensures var o := db.orders[i];
              && FenSum(db.refunds, i) == o.refundedFen <= o.moneyFen
              && Prorated(o.amountMicro, o.moneyFen, o.refundedFen) == Some(MicroSum(db.refunds, i))
              && 0 <= MicroSum(db.refunds, i) <= o.amountMicro
              && (o.refundedFen == o.moneyFen ==> MicroSum(db.refunds, i) == o.amountMicro)
              && (o.status == Refunded ==> o.refundedFen == o.moneyFen)
              && (linkIndex ==> RefundRows(db.refunds, i) <= 1)
    {
      var o := db.orders[i];
      assert OrderRow(o);
      ProratedRounds(o.amountMicro, o.moneyFen, o.refundedFen);
      OneRowEach(db, i);
    }
  }

  lemma OneRowEach(db: DB, i: nat)
    requires Inv(db) && i < |db.orders|
    ensures db.linkIndex ==> RefundRows(db.refunds, i) <= 1
  {
    assert Count(db.entries, RefundTopup, OrderLink(i)) == RefundRows(db.refunds, i);
  }

  /** Credited minus refunded micro-USD of one user, from the orders and the refund rows. */
  function StillPaid(orders: seq<Order>, refunds: seq<Refund>, userId: nat): int {
    if orders == [] then 0
    else
      var last := |orders| - 1;
      StillPaid(orders[..last], refunds, userId)
      + (if orders[last].userId == userId && orders[last].paidAt.Some?
         then orders[last].amountMicro - MicroSum(refunds, last) else 0)
  }

  lemma {:induction false} StillPaidIsNet(orders: seq<Order>, refunds: seq<Refund>, userId: nat)
    requires forall i: nat :: i < |orders| ==> MicroSum(refunds, i) == RefundedMicro(orders[i])
    ensures StillPaid(orders, refunds, userId) == NetPaid(orders, userId)
  {
    if orders != [] {
      StillPaidIsNet(orders[..|orders| - 1], refunds, userId);
    }
  }

  /** paid_quota never exceeds what was paid and not refunded, in spite of the saturating
      subtraction on refunds and whatever spending took from it in between. */
  lemma PaidQuotaBound(linkIndex: bool, steps: seq<Step>)
    ensures var db := Reached(linkIndex, steps);
            forall u: nat :: u < |db.users| ==> 0 <= db.users[u].paidQuota <= StillPaid(db.orders, db.refunds, u)
  {
    hide InvUpTo, Run;
    var db := Reached(linkIndex, steps);
    ReachedInv(linkIndex, steps);
    OrdersKnown(db);
    forall u: nat | u < |db.users| ensures 0 <= db.users[u].paidQuota <= StillPaid(db.orders, db.refunds, u) {
      StillPaidIsNet(db.orders, db.refunds, u);
    }
  }

  /** A quota is below zero only by what top-up refunds reclaimed from its user. */
  lemma OverdraftBound(linkIndex: bool, steps: seq<Step>)
    ensures var db := Reached(linkIndex, steps);
            forall u: nat :: u < |db.users| ==>
              db.users[u].quota >= Total(db.entries, u, RefundTopup) && Total(db.entries, u, RefundTopup) <= 0
  {
    hide InvUpTo, Run;
    ReachedInv(linkIndex, steps);
    OverdraftKnown(Reached(linkIndex, steps));
  }

  lemma OverdraftKnown(db: DB)
    requires Inv(db)
    ensures OverdraftOk(db.users, db.entries)
  {
  }

  // --- Subscriptions -----------------------------------------------------------------------------

  lemma SubsKnown(db: DB)
    requires Inv(db)
    ensures SubsUpTo(db.subs, db.entries, |db.subs|) && TotalsUpTo(db.subs, db.entries, |db.subs|)
    ensures StacksOk(db.subs) && CouponsOk(db.coupons, db.subs)
  {
  }

  lemma {:induction false} RefundedAtMostPaid(subs: seq<Sub>, userId: nat)
    requires forall i :: 0 <= i < |subs| ==> SubRow(subs[i])
    ensures PriceSum(subs, userId, true) <= PriceSum(subs, userId, false)
  {
    if subs != [] {
      assert SubRow(subs[|subs| - 1]);
      RefundedAtMostPaid(subs[..|subs| - 1], userId);
    }
  }

  /** Although price, grant flag and amount are checked on a copy read before the transaction,
      a subscription is refunded at most once, by a positive amount up to its price, a granted
      one never, and no user gets back more than was debited for subscriptions. */
  lemma SubRefundsBounded(linkIndex: bool, steps: seq<Step>)
    ensures var db := Reached(linkIndex, steps);
            && (forall i: nat :: i < |db.subs| ==>
                  && Count(db.entries, RefundSub, SubRefundLink(i))
                     == (if db.subs[i].status == SubRefunded then 1 else 0)
                  && (db.subs[i].granted ==> Count(db.entries, RefundSub, SubRefundLink(i)) == 0))
            && (forall k :: 0 <= k < |db.entries| && db.entries[k].kind == RefundSub ==>
                  && db.entries[k].link.SubRefundLink? && db.entries[k].link.id < |db.subs|
                  && 0 < db.entries[k].amount <= db.subs[db.entries[k].link.id].unitPrice
                  && db.entries[k].userId == db.subs[db.entries[k].link.id].userId)
            && (forall u: nat :: Total(db.entries, u, RefundSub) <= -Total(db.entries, u, PurchaseSub))
  {
    hide InvUpTo, Run;
    var db := Reached(linkIndex, steps);
    ReachedInv(linkIndex, steps);
    SubsKnown(db);
    WholePrefix(db.subs);
    forall i: nat | i < |db.subs| && db.subs[i].granted ensures db.subs[i].status != SubRefunded {
      assert SubRow(db.subs[i]);
    }
    forall k | 0 <= k < |db.entries| && db.entries[k].kind == RefundSub
      ensures SubRefundEntryOf(db.entries[k], db.subs)
    {
    }
    forall u: nat ensures Total(db.entries, u, RefundSub) <= -Total(db.entries, u, PurchaseSub) {
      RefundedAtMostPaid(db.subs, u);
    }
  }

  /** Refunded and revoked are final; revoked means granted, refunded means paid and not granted;
      a cancellation time is set exactly in the three ended states and never changes once set. */
  lemma Lifecycle(linkIndex: bool, steps: seq<Step>, n: nat, id: nat)
    requires n <= |steps| && id < |Reached(linkIndex, steps[..n]).subs|
    ensures var s := Reached(linkIndex, steps[..n]).subs[id];
            id < |Reached(linkIndex, steps).subs| &&
            var s' := Reached(linkIndex, steps).subs[id];
            && SameSub(s, s')
            && (s.status == SubRefunded ==> s'.status == SubRefunded)
            && (s.status == Revoked ==> s'.status == Revoked)
            && (s.canceledAt.Some? ==> s'.canceledAt == s.canceledAt)
            && (s'.status == Revoked ==> s'.granted)
            && (s'.status == SubRefunded ==> !s'.granted && s'.unitPrice > 0)
            && (s'.canceledAt.Some? <==> s'.status in {Canceled, SubRefunded, Revoked})
  {
    hide InvUpTo, Run;
    ReachedInv(linkIndex, steps);
    RunEvolves(linkIndex, steps, n);
    var db := Reached(linkIndex, steps);
    assert SubEvolves(Reached(linkIndex, steps[..n]).subs[id], db.subs[id]);
    SubRowKnown(db, |db.subs|, id);
  }

  /** Over any mix of purchases and grants, a user's stack indexes for a package are 1, 2, 3, ...
      in creation order. */
  lemma StackIndexes(linkIndex: bool, steps: seq<Step>, k: nat)
    requires k < |Reached(linkIndex, steps).subs|
    ensures var subs := Reached(linkIndex, steps).subs;
            subs[k].stackIndex == PairCount(subs[..k], subs[k].userId, subs[k].packageId) + 1
  {
    hide InvUpTo, Run;
    ReachedInv(linkIndex, steps);
    SubsKnown(Reached(linkIndex, steps));
    StacksAt(Reached(linkIndex, steps).subs, k);
  }

  // --- Coupons ---------------------------------------------------------------------------------------

  /** A coupon leaves the available state at most once and never changes afterwards; a used one
      and exactly one subscription of the same user point at each other, and what it saved plus
      what was paid is that subscription's list price. */
  lemma CouponsUsedOnce(linkIndex: bool, steps: seq<Step>, n: nat, id: nat)
    requires n <= |steps| && id < |Reached(linkIndex, steps[..n]).coupons|
    ensures var c := Reached(linkIndex, steps[..n]).coupons[id];
            var db := Reached(linkIndex, steps);
            id < |db.coupons| &&
            var c' := db.coupons[id];
            && (c.status != Available ==> c' == c)
            && (c'.status == Used <==> exists s: nat :: s < |db.subs| && db.subs[s].coupon == Some(id))
            && (forall s: nat, t: nat ::
                  s < |db.subs| && t < |db.subs| && db.subs[s].coupon == Some(id) == db.subs[t].coupon ==> s == t)
            && (forall s: nat :: s < |db.subs| && db.subs[s].coupon == Some(id) ==>
                  && c'.usedOn == Some(s) && c'.userId == db.subs[s].userId
                  && c'.saving + db.subs[s].unitPrice == db.subs[s].listPrice && c'.saving >= 0)
  {
    hide InvUpTo, Run;
    var db := Reached(linkIndex, steps);
    ReachedInv(linkIndex, steps);
    RunEvolves(linkIndex, steps, n);
    assert CouponEvolves(Reached(linkIndex, steps[..n]).coupons[id], db.coupons[id]);
    SubsKnown(db);
    assert UsedOnce(db.coupons[id], id, db.subs);
    forall s: nat | s < |db.subs| && db.subs[s].coupon == Some(id)
      ensures db.coupons[id].usedOn == Some(s) && db.subs[s].unitPrice <= db.subs[s].listPrice
    {
      assert PricedBy(db.subs[s], s, db.coupons);
    }
    if db.coupons[id].status == Used {
      assert db.coupons[id].usedOn.Some?;
      assert db.subs[db.coupons[id].usedOn.value].coupon == Some(id);
    }
  }

  // --- Reconciliation ------------------------------------------------------------------------------------

  lemma ReconsKnown(db: DB)
    requires Inv(db)
    ensures ReconsOk(db.recons, db.entries)
  {
  }

  /** Ledger rows never change; each has at most one reconciliation row; a charged one points at
      one adjustment of exactly the estimated cost, within the cap; all that was ever charged to a
      user this way is the sum over its charged rows. */
  lemma ReconciledOnce(linkIndex: bool, steps: seq<Step>, n: nat)
    requires n <= |steps|
    ensures var db := Reached(linkIndex, steps);
            && Reached(linkIndex, steps[..n]).entries <= db.entries
            && (forall q, r :: 0 <= q < r < |db.recons| ==> db.recons[q].entryId != db.recons[r].entryId)
            && (forall r :: 0 <= r < |db.recons| ==> ReconRow(db.recons[r], db.entries))
            && (forall k: nat ::
                  Count(db.entries, AdminAdjust, EntryLink(k)) == if ChargedFor(db.recons, k) then 1 else 0)
            && (forall u: nat :: ReconciledTotal(db.entries, u) == -ChargedSum(db.recons, db.entries, u))
  {
    hide InvUpTo, Run;
    ReachedInv(linkIndex, steps);
    RunEvolves(linkIndex, steps, n);
    ReconsKnown(Reached(linkIndex, steps));
  }

  /** Once an entry is reconciled, every further attempt, by whoever and with whatever result,
      leaves the whole database as it is. */
  lemma RepeatReconcileIgnored(linkIndex: bool, steps: seq<Step>, id: nat, result: ReconcileResult, now: int, bps: int,
                               windowSeconds: int)
    requires var db := Reached(linkIndex, steps); id < |db.entries| && Reconciled(db.recons, id)
    ensures var db := Reached(linkIndex, steps);
            Reconcile(db, id, db.entries[id].userId, result, now, bps, windowSeconds).After(db) == db
  {
    hide InvUpTo, Run, Reconcile;
    ReachedInv(linkIndex, steps);
    ReconcileKeeps(Reached(linkIndex, steps), id, result, now, bps, windowSeconds);
  }

  /** At most one reset entry is linked to a subscription, however often it is reset. */
  lemma ResetLinkedOnce(linkIndex: bool, steps: seq<Step>, id: nat)
    ensures Count(Reached(linkIndex, steps).entries, AdminAdjust, ResetLink(id)) <= 1
  {
    hide InvUpTo, Run;
    ReachedInv(linkIndex, steps);
    ReconsKnown(Reached(linkIndex, steps));
  }

  // --- What the ledger index blocks ----------------------------------------------------------------------------

  /** With the ledger index, in every run: once a registration paid a signup bonus, no referrer bonus
      for that user and no referee bonus through that user is ever paid. */
  lemma SignupBonusBlocksForGood(steps: seq<Step>, n: nat, other: nat, referrerBonus: nat, refereeBonus: nat,
                                 later: int)
    requires n < |steps| && steps[n].Do? && steps[n].action.SignUp? && steps[n].action.signupBonus > 0
    ensures var newUser := |Reached(true, steps[..n]).users|;
            var db := Reached(true, steps);
            && (referrerBonus > 0 ==> ReferralBonuses(db, newUser, other, referrerBonus, refereeBonus, later).Abort?)
            && (refereeBonus > 0 ==> ReferralBonuses(db, other, newUser, referrerBonus, refereeBonus, later).Abort?)
  {
    hide InvUpTo, Evolves, Fits, ReferralBonuses, CreateUser, Run, Apply, Perform;
    var before := Reached(true, steps[..n]);
    ReachedInv(true, steps[..n]);
    RunEvolves(true, steps, n + 1);
    var a, at := steps[n].action, steps[n].env.now;
    OneAction(true, steps, n);
    PerformSignUp(before, a, steps[n].env);
    SignupBonusBlocksReferral(before, a.ordinary, a.signupBonus, a.welcome, a.expiresAt, at, Reached(true, steps),
                              other, referrerBonus, refereeBonus, later);
  }

  /** Likewise a referrer's second referee bonus, whoever the users are and whatever lies between. */
  lemma SecondReferralBlocksForGood(steps: seq<Step>, n: nat, second: nat, otherBonus: nat, laterBonus: nat, later: int)
    requires n < |steps| && steps[n].Do? && steps[n].action.Refer? && steps[n].action.refereeBonus > 0 && laterBonus > 0
    requires Perform(Reached(true, steps[..n]), steps[n].action, steps[n].env).Commit?
    ensures var db := Reached(true, steps);
            ReferralBonuses(db, second, steps[n].action.referrer, otherBonus, laterBonus, later).Abort?
  {
    hide InvUpTo, Evolves, Fits, ReferralBonuses, Run, Apply, Perform;
    var before := Reached(true, steps[..n]);
    ReachedInv(true, steps[..n]);
    RunEvolves(true, steps, n + 1);
    var a, at := steps[n].action, steps[n].env.now;
    OneAction(true, steps, n);
    PerformRefer(before, a, steps[n].env);
    SecondReferralBlocked(before, a.newUser, second, a.referrer, a.referrerBonus, a.refereeBonus, at,
                          Reached(true, steps), otherBonus, laterBonus, later);
  }

  lemma OneAction(linkIndex: bool, steps: seq<Step>, n: nat)
    requires n < |steps| && steps[n].Do?
    ensures var before := Reached(linkIndex, steps[..n]);
            Reached(linkIndex, steps[..n + 1]) == Perform(before, steps[n].action, steps[n].env).After(before)
  {
    hide Perform;
    assert steps[..n + 1][..n] == steps[..n];
  }

  lemma PerformRefer(db: DB, a: Action, env: Env)
    requires a.Refer?
    ensures Perform(db, a, env)
            == ReferralBonuses(db, a.newUser, a.referrer, a.referrerBonus, a.refereeBonus, env.now)
  {
    hide ReferralBonuses;
  }

  lemma PerformSignUp(db: DB, a: Action, env: Env)
    requires a.SignUp?
    ensures Perform(db, a, env) == CreateUser(db, a.ordinary, a.signupBonus, a.welcome, a.expiresAt, env.now)
  {
    hide CreateUser;
  }

  // --- What does not hold ------------------------------------------------------------------------------------

  /** A paid order can still become failed, in any run: the write after a gateway error is not
      guarded. The order keeps its one credit, and can then no longer be refunded. */
  lemma PaidOrderCanFail(linkIndex: bool, steps: seq<Step>, id: nat, env: Env, requestedFen: nat, reclaim: bool,
                         externalRef: string, now: int)
    requires id < |Reached(linkIndex, steps).orders| && Reached(linkIndex, steps).orders[id].status == Paid
    ensures var db := Reached(linkIndex, steps + [Do(GatewayFailed(id), env)]);
            && id < |db.orders| && db.orders[id].status == Failed
            && Count(db.entries, Topup, OrderLink(id)) == 1
            && RefundOrder(db, id, db.orders[id].userId, requestedFen, reclaim, externalRef, now).Abort?
  {
    hide InvUpTo, Run, RefundOrder, OrderRow;
    var before := Reached(linkIndex, steps);
    ReachedInv(linkIndex, steps);
    OrderKnown(before, id);
    PaidIsCredited(before, id);
    FailOrderKeeps(before, id);
    RunOne(linkIndex, steps, Do(GatewayFailed(id), env));
    var db := FailOrder(before, id).db;
    RefundCommits(db, id, db.orders[id].userId, requestedFen, reclaim, externalRef, now);
  }

  lemma PaidIsCredited(db: DB, id: nat)
    requires Inv(db) && id < |db.orders| && db.orders[id].status == Paid
    ensures Count(db.entries, Topup, OrderLink(id)) == 1
  {
    hide InvUpTo;
    OrderKnown(db, id);
    UncreditedOrder(db, id);
  }

  lemma RunOne(linkIndex: bool, steps: seq<Step>, step: Step)
    ensures Run(linkIndex, steps + [step]) == Apply(Run(linkIndex, steps), step)
  {
    assert (steps + [step])[..|steps|] == steps;
  }
}
