/** Ending subscriptions and moving coupons keeps the invariant, and exactly when each
    transition commits. */
module SubscriptionProofs {
  import opened Options
  import opened Model
  import opened Ledger
  import opened Rewards
  import opened Subscriptions
  import opened Ids
  import opened Invariants
  import opened TopupProofs
  import opened RewardProofs

  // --- Changing one row ------------------------------------------------------------------

  /** Two versions of one subscription: what is fixed when it is created. */
  ghost predicate SameSub(s: Sub, s': Sub) {
    s' == s.(status := s'.status, canceledAt := s'.canceledAt)
  }

  lemma {:induction false} PriceSumUpdate(subs: seq<Sub>, i: nat, s: Sub, userId: nat, onlyRefunded: bool)
    requires i < |subs|
    ensures PriceSum(subs[i := s], userId, onlyRefunded) ==
            PriceSum(subs, userId, onlyRefunded) - Paying(subs[i], userId, onlyRefunded)
            + Paying(s, userId, onlyRefunded)
  {
    var last := |subs| - 1;
    if i == last {
      assert subs[i := s][..last] == subs[..last];
    } else {
      assert subs[i := s][..last] == subs[..last][i := s];
      PriceSumUpdate(subs[..last], i, s, userId, onlyRefunded);
    }
  }

  lemma {:induction false} PairCountUpdate(subs: seq<Sub>, i: nat, s: Sub, userId: nat, packageId: nat)
    requires i < |subs| && SameSub(subs[i], s)
    ensures PairCount(subs[i := s], userId, packageId) == PairCount(subs, userId, packageId)
  {
    var last := |subs| - 1;
    if i == last {
      assert subs[i := s][..last] == subs[..last];
    } else {
      assert subs[i := s][..last] == subs[..last][i := s];
      PairCountUpdate(subs[..last], i, s, userId, packageId);
    }
  }

  lemma {:induction false} StacksUpdate(subs: seq<Sub>, i: nat, s: Sub)
    requires StacksOk(subs) && i < |subs| && SameSub(subs[i], s)
    ensures StacksOk(subs[i := s])
  {
    var last := |subs| - 1;
    if i == last {
      assert subs[i := s][..last] == subs[..last];
    } else {
      assert subs[i := s][..last] == subs[..last][i := s];
      StacksUpdate(subs[..last], i, s);
      PairCountUpdate(subs[..last], i, s, subs[last].userId, subs[last].packageId);
    }
  }

  lemma CouponsUpdate(coupons: seq<Coupon>, subs: seq<Sub>, i: nat, s: Sub)
    requires CouponsOk(coupons, subs) && i < |subs| && SameSub(subs[i], s)
    ensures CouponsOk(coupons, subs[i := s])
  {
    var subs' := subs[i := s];
    forall c: nat | c < |coupons| ensures UsedOnce(coupons[c], c, subs') {
      assert UsedOnce(coupons[c], c, subs);
    }
    forall j: nat | j < |subs'| ensures PricedBy(subs'[j], j, coupons) {
      assert PricedBy(subs[j], j, coupons);
    }
  }

  lemma EntriesOfUpdate(subs: seq<Sub>, entries: seq<Entry>, i: nat, s: Sub)
    requires i < |subs| && SameSub(subs[i], s)
    ensures forall k :: 0 <= k < |entries| && PurchaseEntryOf(entries[k], subs) ==>
              PurchaseEntryOf(entries[k], subs[i := s])
    ensures forall k :: 0 <= k < |entries| && SubRefundEntryOf(entries[k], subs) ==>
              SubRefundEntryOf(entries[k], subs[i := s])
  {
  }

  /** A status change that is neither a refund nor a revocation needs no entry. */
  lemma StatusKeeps(db: DB, id: nat, s: Sub)
    requires Inv(db) && id < |db.subs| && SameSub(db.subs[id], s) && SubRow(s)
    requires (s.status == SubRefunded <==> db.subs[id].status == SubRefunded)
    requires (s.status == Revoked <==> db.subs[id].status == Revoked)
    ensures Inv(SetSub(db, id, s))
  {
    hide Balanced, OrdersOk, RefundsOk, PaidOk, StacksOk, CouponsOk, ReconsOk, OverdraftOk, LinksOk, AmountsOk, IndexOk;
    StatusTables(db.subs, db.entries, id, s);
    StacksUpdate(db.subs, id, s);
    CouponsUpdate(db.coupons, db.subs, id, s);
    LinksFrame(db, SetSub(db, id, s));
    IndexFrame(db, SetSub(db, id, s));
  }

  lemma StatusTables(subs: seq<Sub>, entries: seq<Entry>, id: nat, s: Sub)
    requires SubsUpTo(subs, entries, |subs|) && TotalsUpTo(subs, entries, |subs|)
    requires id < |subs| && SameSub(subs[id], s) && SubRow(s)
    requires (s.status == SubRefunded <==> subs[id].status == SubRefunded)
    requires (s.status == Revoked <==> subs[id].status == Revoked)
    ensures SubsUpTo(subs[id := s], entries, |subs|) && TotalsUpTo(subs[id := s], entries, |subs|)
  {
    EntriesOfUpdate(subs, entries, id, s);
    WholePrefix(subs);
    WholePrefix(subs[id := s]);
    forall u: nat, b: bool ensures PriceSum(subs[id := s], u, b) == PriceSum(subs, u, b) {
      PriceSumUpdate(subs, id, s, u, b);
    }
  }

  lemma WholePrefix(subs: seq<Sub>)
    ensures subs[..|subs|] == subs
  {
  }

  // --- Cancel, expire, pause ------------------------------------------------------------------

  lemma SubRowKnown(db: DB, n: nat, id: nat)
    requires InvUpTo(db, n) && id < |db.subs|
    ensures SubRow(db.subs[id])
  {
  }

  /** A cancellation commits exactly on an active subscription. */
  lemma CancelKeeps(db: DB, id: nat, now: int)
    requires Inv(db)
    ensures var out := Cancel(db, id, now);
            && (out.Commit? <==> id < |db.subs| && db.subs[id].status == Active)
            && (out.Commit? ==> Inv(out.db))
  {
    hide InvUpTo;
    if id < |db.subs| && db.subs[id].status == Active {
      SubRowKnown(db, |db.subs|, id);
      StatusKeeps(db, id, db.subs[id].(status := Canceled, canceledAt := Some(now)));
    }
  }

  lemma ExpireKeeps(db: DB, id: nat)
    requires Inv(db)
    ensures var out := Expire(db, id); out.Commit? ==> Inv(out.db)
  {
    hide InvUpTo;
    if id < |db.subs| && db.subs[id].status == Active {
      SubRowKnown(db, |db.subs|, id);
      StatusKeeps(db, id, db.subs[id].(status := Expired));
    }
  }

  lemma SetPausedKeeps(db: DB, id: nat, paused: bool)
    requires Inv(db)
    ensures var out := SetPaused(db, id, paused); out.Commit? ==> Inv(out.db)
  {
    hide InvUpTo;
    if SetPaused(db, id, paused).Commit? {
      SubRowKnown(db, |db.subs|, id);
      StatusKeeps(db, id, db.subs[id].(status := if paused then Paused else Active));
    }
  }

  // --- Refunding a subscription -------------------------------------------------------------------

  /** A copy of a subscription row taken in some earlier state. */
  ghost predicate SubCopy(db: DB, id: nat, copy: Sub) {
    id < |db.subs| && SameSub(copy, db.subs[id])
  }

  /** The row a subscription refund leaves behind. */
  ghost predicate SubRefundRow(s: Sub, s': Sub) {
    && SameSub(s, s') && SubRow(s') && s'.status == SubRefunded && !s.granted
    && s.status != SubRefunded && s.status != Revoked
  }

  lemma RefundSubs(subs: seq<Sub>, entries: seq<Entry>, id: nat, s: Sub, e: Entry)
    requires SubsUpTo(subs, entries, |subs|) && id < |subs| && SubRefundRow(subs[id], s)
    requires e.kind == RefundSub && e.link == SubRefundLink(id) && e.userId == s.userId && 0 < e.amount <= s.unitPrice
    ensures SubsUpTo(subs[id := s], entries + [e], |subs|)
  {
    Appended(entries, e);
    EntriesOfUpdate(subs, entries, id, s);
    var entries' := entries + [e];
    forall k | 0 <= k < |entries'| && entries'[k].kind == PurchaseSub
      ensures PurchaseEntryOf(entries'[k], subs[id := s])
    {
      assert PurchaseEntryOf(entries[k], subs);
    }
    forall k | 0 <= k < |entries'| && entries'[k].kind == RefundSub
      ensures SubRefundEntryOf(entries'[k], subs[id := s])
    {
      assert k < |entries| ==> SubRefundEntryOf(entries[k], subs);
    }
  }

  lemma RefundTotals(subs: seq<Sub>, entries: seq<Entry>, id: nat, s: Sub, e: Entry)
    requires TotalsUpTo(subs, entries, |subs|) && id < |subs| && SubRefundRow(subs[id], s)
    requires e.kind == RefundSub && e.userId == s.userId && 0 < e.amount <= s.unitPrice
    ensures TotalsUpTo(subs[id := s], entries + [e], |subs|)
  {
    Appended(entries, e);
    WholePrefix(subs);
    WholePrefix(subs[id := s]);
    forall u: nat
      ensures PriceSum(subs[id := s], u, false) == PriceSum(subs, u, false)
      ensures PriceSum(subs[id := s], u, true) == PriceSum(subs, u, true) + (if u == s.userId then s.unitPrice else 0)
    {
      PriceSumUpdate(subs, id, s, u, false);
      PriceSumUpdate(subs, id, s, u, true);
    }
  }

  lemma SubRefundStepKeeps(db: DB, id: nat, s: Sub, amount: int, now: int)
    requires Inv(db) && id < |db.subs| && SubRefundRow(db.subs[id], s) && 0 < amount <= s.unitPrice
    ensures var out := Post(SetSub(db, id, s), s.userId, amount, RefundSub, SubRefundLink(id), now);
            out.Commit? ==> Inv(out.db)
  {
    hide Balanced, OrdersOk, RefundsOk, SubsUpTo, TotalsUpTo, StacksOk, CouponsOk, ReconsOk, OverdraftOk, LinksOk,
         AmountsOk, IndexOk;
    var out := Post(SetSub(db, id, s), s.userId, amount, RefundSub, SubRefundLink(id), now);
    if out.Commit? {
      var e := out.db.entries[|db.entries|];
      BalancedPost(db.users, db.entries, out.db.users, e);
      OrdersPost(db.orders, db.refunds, db.entries, e);
      RefundSubs(db.subs, db.entries, id, s, e);
      RefundTotals(db.subs, db.entries, id, s, e);
      StacksUpdate(db.subs, id, s);
      CouponsUpdate(db.coupons, db.subs, id, s);
      ReconsPost(db.recons, db.entries, e);
      OverdraftPost(db.users, db.entries, out.db.users, e);
      LinksPost(db, out.db, e);
      IndexPost(db, out.db, e);
    }
  }

  lemma SubRefundCounts(db: DB, id: nat)
    requires Inv(db) && id < |db.subs|
    ensures Count(db.entries, RefundSub, SubLink(id)) == 0
    ensures Count(db.entries, RefundSub, SubRefundLink(id)) == if db.subs[id].status == SubRefunded then 1 else 0
    ensures SubRow(db.subs[id]) && db.subs[id].userId < |db.users|
  {
    forall k | 0 <= k < |db.entries| && db.entries[k].kind == RefundSub ensures db.entries[k].link != SubLink(id) {
      assert SubRefundEntryOf(db.entries[k], db.subs);
    }
    Uncounted(db.entries, RefundSub, SubLink(id));
  }

  /** The checks on the stale copy are enough, because what they look at never changes: the
      transaction commits exactly while the row is in a refundable state. */
  lemma SubRefundKeeps(db: DB, id: nat, copy: Sub, amount: int, now: int)
    requires Inv(db) && SubCopy(db, id, copy) && RefundAdmissible(copy, amount)
    ensures var out := RefundSubscription(db, id, copy.userId, amount, now);
            && (out.Commit? <==> RefundableStatus(db.subs[id].status))
            && (out.Commit? ==> Inv(out.db))
  {
    hide InvUpTo;
    SubRefundCounts(db, id);
    if RefundableStatus(db.subs[id].status) {
      var s := db.subs[id].(status := SubRefunded, canceledAt := Stamp(db.subs[id].canceledAt, now));
      SubRefundStepKeeps(db, id, s, amount, now);
    }
  }

  // --- Revoking a grant -----------------------------------------------------------------------------

  ghost predicate RevokedRow(s: Sub, s': Sub) {
    && SameSub(s, s') && SubRow(s') && s'.status == Revoked
    && s.granted && s.status != Revoked && s.status != SubRefunded
  }

  lemma RevokeSubs(subs: seq<Sub>, entries: seq<Entry>, id: nat, s: Sub, e: Entry)
    requires SubsUpTo(subs, entries, |subs|) && id < |subs| && RevokedRow(subs[id], s)
    requires e.kind == AdminRevokeGrant && e.link == SubLink(id)
    ensures SubsUpTo(subs[id := s], entries + [e], |subs|)
  {
    Appended(entries, e);
    EntriesOfUpdate(subs, entries, id, s);
    var entries' := entries + [e];
    forall k | 0 <= k < |entries'| && entries'[k].kind == PurchaseSub
      ensures PurchaseEntryOf(entries'[k], subs[id := s])
    {
      assert PurchaseEntryOf(entries[k], subs);
    }
    forall k | 0 <= k < |entries'| && entries'[k].kind == RefundSub
      ensures SubRefundEntryOf(entries'[k], subs[id := s])
    {
      assert SubRefundEntryOf(entries[k], subs);
    }
  }

  lemma RevokeTotals(subs: seq<Sub>, entries: seq<Entry>, id: nat, s: Sub, e: Entry)
    requires TotalsUpTo(subs, entries, |subs|) && id < |subs| && RevokedRow(subs[id], s)
    requires e.kind == AdminRevokeGrant
    ensures TotalsUpTo(subs[id := s], entries + [e], |subs|)
  {
    Appended(entries, e);
    WholePrefix(subs);
    WholePrefix(subs[id := s]);
    forall u: nat, b: bool ensures PriceSum(subs[id := s], u, b) == PriceSum(subs, u, b) {
      PriceSumUpdate(subs, id, s, u, b);
    }
  }

  lemma RevokeStepKeeps(db: DB, id: nat, s: Sub, now: int)
    requires Inv(db) && id < |db.subs| && RevokedRow(db.subs[id], s)
    ensures var out := Post(SetSub(db, id, s), s.userId, 0, AdminRevokeGrant, SubLink(id), now);
            out.Commit? ==> Inv(out.db)
  {
    hide Balanced, OrdersOk, RefundsOk, SubsUpTo, TotalsUpTo, StacksOk, CouponsOk, ReconsOk, OverdraftOk, LinksOk,
         AmountsOk, IndexOk;
    var out := Post(SetSub(db, id, s), s.userId, 0, AdminRevokeGrant, SubLink(id), now);
    if out.Commit? {
      var e := out.db.entries[|db.entries|];
      BalancedPost(db.users, db.entries, out.db.users, e);
      OrdersPost(db.orders, db.refunds, db.entries, e);
      RevokeSubs(db.subs, db.entries, id, s, e);
      RevokeTotals(db.subs, db.entries, id, s, e);
      StacksUpdate(db.subs, id, s);
      CouponsUpdate(db.coupons, db.subs, id, s);
      ReconsPost(db.recons, db.entries, e);
      OverdraftPost(db.users, db.entries, out.db.users, e);
      LinksPost(db, out.db, e);
      IndexPost(db, out.db, e);
    }
  }

  lemma RevokeCounts(db: DB, id: nat)
    requires Inv(db) && id < |db.subs|
    ensures Count(db.entries, AdminRevokeGrant, SubLink(id)) == if db.subs[id].status == Revoked then 1 else 0
    ensures SubRow(db.subs[id]) && db.subs[id].userId < |db.users|
  {
  }

  /** A revocation commits exactly on a granted subscription that is active or paused. */
  lemma RevokeKeeps(db: DB, id: nat, owner: nat, now: int)
    requires Inv(db) && owner < |db.users|
    ensures var out := RevokeGrant(db, id, owner, now);
            && (out.Commit? <==> id < |db.subs| && db.subs[id].granted && RevocableStatus(db.subs[id].status))
            && (out.Commit? ==> Inv(out.db))
  {
    hide InvUpTo;
    if id < |db.subs| && db.subs[id].granted && RevocableStatus(db.subs[id].status) {
      RevokeCounts(db, id);
      var s := db.subs[id].(status := Revoked, canceledAt := Stamp(db.subs[id].canceledAt, now));
      RevokeStepKeeps(db, id, s, now);
    }
  }

  // --- Coupons ----------------------------------------------------------------------------------------

  lemma CouponRowKeeps(db: DB, id: nat, c: Coupon)
    requires Inv(db) && id < |db.coupons| && db.coupons[id].status == Available
    requires c == db.coupons[id].(status := CouponRevoked)
    ensures Inv(db.(coupons := db.coupons[id := c]))
  {
    hide Balanced, OrdersOk, RefundsOk, PaidOk, SubsUpTo, TotalsUpTo, StacksOk, CouponsOk, ReconsOk, OverdraftOk,
         LinksOk, AmountsOk, IndexOk;
    CouponsRevoke(db.coupons, db.subs, id, c);
    LinksFrame(db, db.(coupons := db.coupons[id := c]));
    IndexFrame(db, db.(coupons := db.coupons[id := c]));
  }

  lemma CouponsRevoke(coupons: seq<Coupon>, subs: seq<Sub>, id: nat, c: Coupon)
    requires CouponsOk(coupons, subs) && id < |coupons| && coupons[id].status == Available
    requires c == coupons[id].(status := CouponRevoked)
    ensures CouponsOk(coupons[id := c], subs)
  {
    var coupons' := coupons[id := c];
    forall k: nat | k < |coupons'| ensures UsedOnce(coupons'[k], k, subs) {
      assert UsedOnce(coupons[k], k, subs);
    }
    forall s: nat | s < |subs| ensures PricedBy(subs[s], s, coupons[id := c]) {
      assert PricedBy(subs[s], s, coupons);
      assert UsedOnce(coupons[id], id, subs);
    }
  }

  lemma RevokeCouponKeeps(db: DB, id: nat, now: int)
    requires Inv(db)
    ensures var out := RevokeCoupon(db, id, now); out.Commit? ==> Inv(out.db)
  {
    hide InvUpTo;
    if RevokeCoupon(db, id, now).Commit? {
      CouponRowKeeps(db, id, db.coupons[id].(status := CouponRevoked));
    }
  }

  ghost predicate NewCoupons(added: seq<Coupon>, users: nat) {
    forall i :: 0 <= i < |added| ==> added[i].status == Available && added[i].usedOn == None && added[i].userId < users
  }

  lemma {:induction false} CouponsAppendKeep(db: DB, added: seq<Coupon>)
    requires Inv(db) && NewCoupons(added, |db.users|)
    ensures Inv(db.(coupons := db.coupons + added))
    decreases |added|
  {
    hide InvUpTo;
    if added == [] {
      assert db.coupons + added == db.coupons;
    } else {
      CouponAppendKeeps(db, added[0]);
      CouponsAppendKeep(db.(coupons := db.coupons + [added[0]]), added[1..]);
      assert db.coupons + [added[0]] + added[1..] == db.coupons + added;
    }
  }

  /** A batch passes exactly when every listed user exists and is enabled. */
  lemma {:induction false} BatchPasses(users: seq<User>, userIds: seq<nat>)
    ensures BatchRefusal(users, userIds) == None <==>
            forall i :: 0 <= i < |userIds| ==> userIds[i] < |users| && users[userIds[i]].enabled
  {
    if userIds != [] {
      BatchPasses(users, userIds[1..]);
      assert forall i :: 0 < i < |userIds| ==> userIds[i] == userIds[1..][i - 1];
      if BatchRefusal(users, userIds) == None {
      } else if userIds[0] < |users| && users[userIds[0]].enabled {
        var i :| 0 <= i < |userIds[1..]| && !(userIds[1..][i] < |users| && users[userIds[1..][i]].enabled);
        assert userIds[i + 1] == userIds[1..][i];
      }
    }
  }

  /** How many of these coupons one user holds. */
  function HeldBy(coupons: seq<Coupon>, userId: nat): nat {
    if coupons == [] then 0
    else HeldBy(coupons[..|coupons| - 1], userId) + (if coupons[|coupons| - 1].userId == userId then 1 else 0)
  }

  lemma {:induction false} HeldByAppend(xs: seq<Coupon>, ys: seq<Coupon>, userId: nat)
    ensures HeldBy(xs + ys, userId) == HeldBy(xs, userId) + HeldBy(ys, userId)
  {
    if ys == [] {
      assert xs + ys == xs;
    } else {
      HeldByAppend(xs, ys[..|ys| - 1], userId);
      assert (xs + ys)[..|xs + ys| - 1] == xs + ys[..|ys| - 1];
    }
  }

  lemma {:induction false} HeldByAll(coupons: seq<Coupon>, owner: nat, userId: nat)
    requires forall i :: 0 <= i < |coupons| ==> coupons[i].userId == owner
    ensures HeldBy(coupons, userId) == if owner == userId then |coupons| else 0
  {
    if coupons != [] {
      HeldByAll(coupons[..|coupons| - 1], owner, userId);
    }
  }

  /** How often the list names this user. */
  function Mentions(userIds: seq<nat>, userId: nat): nat {
    if userIds == [] then 0
    else Mentions(userIds[..|userIds| - 1], userId) + (if userIds[|userIds| - 1] == userId then 1 else 0)
  }

  lemma OneMore(n: nat, qty: nat)
    ensures (n + 1) * qty == n * qty + qty
  {
  }

  lemma {:induction false} BatchFresh(userIds: seq<nat>, template: CouponTemplate, qty: nat, expiresAt: Option<int>,
                                      users: nat)
    requires forall i :: 0 <= i < |userIds| ==> userIds[i] < users
    ensures NewCoupons(CouponBatch(userIds, template, qty, expiresAt), users)
  {
    if userIds != [] {
      BatchFresh(userIds[..|userIds| - 1], template, qty, expiresAt, users);
    }
  }

  /** Everyone gets qty coupons for each time the list names them. */
  lemma {:induction false} BatchShares(userIds: seq<nat>, template: CouponTemplate, qty: nat, expiresAt: Option<int>,
                                       userId: nat)
    ensures HeldBy(CouponBatch(userIds, template, qty, expiresAt), userId) == Mentions(userIds, userId) * qty
  {
    if userIds != [] {
      var last := |userIds| - 1;
      var mine := seq(qty, _ => FromTemplate(userIds[last], template, expiresAt));
      BatchShares(userIds[..last], template, qty, expiresAt, userId);
      HeldByAppend(CouponBatch(userIds[..last], template, qty, expiresAt), mine, userId);
      HeldByAll(mine, userIds[last], userId);
      OneMore(Mentions(userIds[..last], userId), qty);
    }
  }

  /** The whole batch or nothing: it commits exactly when the template and every listed user
      are usable, and then each user gains exactly qty coupons per mention. */
  lemma GrantCouponsKeep(db: DB, userIds: seq<nat>, template: CouponTemplate, qty: nat, expiresAt: Option<int>)
    requires Inv(db)
    ensures GrantCoupons(db, userIds, template, qty, expiresAt).Commit? <==>
            && template.enabled
            && (forall i :: 0 <= i < |userIds| ==> userIds[i] < |db.users| && db.users[userIds[i]].enabled)
    ensures var out := GrantCoupons(db, userIds, template, qty, expiresAt);
            out.Commit? ==>
              && Inv(out.db)
              && (forall u: nat :: HeldBy(out.db.coupons, u) == HeldBy(db.coupons, u) + Mentions(userIds, u) * qty)
  {
    hide InvUpTo;
    BatchPasses(db.users, userIds);
    if GrantCoupons(db, userIds, template, qty, expiresAt).Commit? {
      var added := CouponBatch(userIds, template, qty, expiresAt);
      forall u: nat
        ensures HeldBy(db.coupons + added, u) == HeldBy(db.coupons, u) + Mentions(userIds, u) * qty
      {
        BatchShares(userIds, template, qty, expiresAt, u);
        HeldByAppend(db.coupons, added, u);
      }
      BatchFresh(userIds, template, qty, expiresAt, |db.users|);
      CouponsAppendKeep(db, added);
    }
  }

  lemma {:induction false} MentionsCount(rows: seq<nat>, userId: nat)
    ensures Mentions(rows, userId) == multiset(rows)[userId]
  {
    if rows != [] {
      MentionsCount(rows[..|rows| - 1], userId);
      assert rows == rows[..|rows| - 1] + [rows[|rows| - 1]];
    }
  }

  lemma {:induction false} DistinctOnce(rows: seq<nat>, userId: nat)
    requires Distinct(rows)
    ensures Mentions(rows, userId) == if userId in rows then 1 else 0
  {
    if rows != [] {
      DistinctOnce(rows[..|rows| - 1], userId);
    }
  }

  /** A bulk grant that commits gives every user it names, however often, exactly qty coupons,
      and nobody else any. */
  lemma BulkGrantShares(db: DB, userIds: seq<nat>, template: CouponTemplate, qty: nat, expiresAt: Option<int>,
                        userId: nat)
    requires Inv(db)
    ensures var out := GrantCoupons(db, Ascending(Normalized(userIds)), template, qty, expiresAt);
            out.Commit? ==>
              HeldBy(out.db.coupons, userId) == HeldBy(db.coupons, userId) + (if userId + 1 in userIds then qty else 0)
  {
    hide InvUpTo, GrantCoupons, Normalized, Ascending, Mentions, HeldBy, Distinct, Sorted;
    var rows := Normalized(userIds);
    NormalizedExactly(userIds);
    AscendingExactly(rows);
    MentionsCount(rows, userId);
    MentionsCount(Ascending(rows), userId);
    DistinctOnce(rows, userId);
    GrantCouponsKeep(db, Ascending(rows), template, qty, expiresAt);
  }
}
