/** Purchases and grants keep the invariant: what they debit, number, limit and use up. */
module PurchaseProofs {
  import opened Options
  import opened Money
  import opened Model
  import opened Ledger
  import opened Rewards
  import opened Subscriptions
  import opened Invariants
  import opened TopupProofs
  import opened RewardProofs

  // --- Stack indexes ----------------------------------------------------------------------

  /** StacksOk read at one place. */
  lemma {:induction false} StacksAt(subs: seq<Sub>, k: nat)
    requires StacksOk(subs) && k < |subs|
    ensures subs[k].stackIndex == PairCount(subs[..k], subs[k].userId, subs[k].packageId) + 1
  {
    var last := |subs| - 1;
    if k < last {
      StacksAt(subs[..last], k);
      assert subs[..last][..k] == subs[..k];
    }
  }

  /** The highest index in use is the number of subscriptions, so the next one is fresh. */
  lemma {:induction false} MaxIsCount(subs: seq<Sub>, userId: nat, packageId: nat)
    requires StacksOk(subs)
    ensures MaxIndex(subs, userId, packageId) ==
            (if PairCount(subs, userId, packageId) == 0 then None else Some(PairCount(subs, userId, packageId)))
    ensures NextIndex(subs, userId, packageId) == PairCount(subs, userId, packageId) + 1
  {
    if subs != [] {
      var last := |subs| - 1;
      MaxIsCount(subs[..last], userId, packageId);
    }
  }

  /** Subscriptions of one user and one package, numbered from base. */
  ghost predicate Numbered(subs: seq<Sub>, userId: nat, packageId: nat, base: int) {
    forall i :: 0 <= i < |subs| ==>
      subs[i].userId == userId && subs[i].packageId == packageId && subs[i].stackIndex == base + i
  }

  lemma StacksSnoc(subs: seq<Sub>, subs': seq<Sub>, s: Sub)
    requires StacksOk(subs) && s.stackIndex == PairCount(subs, s.userId, s.packageId) + 1
    requires subs' == subs + [s]
    ensures StacksOk(subs')
    ensures PairCount(subs', s.userId, s.packageId) == PairCount(subs, s.userId, s.packageId) + 1
  {
    assert subs'[..|subs|] == subs;
  }

  lemma {:induction false} StacksAppend(subs: seq<Sub>, added: seq<Sub>, userId: nat, packageId: nat)
    requires StacksOk(subs) && Numbered(added, userId, packageId, PairCount(subs, userId, packageId) + 1)
    ensures StacksOk(subs + added)
    ensures PairCount(subs + added, userId, packageId) == PairCount(subs, userId, packageId) + |added|
  {
    hide StacksOk, PairCount;
    if added == [] {
      assert subs + added == subs;
    } else {
      var last := |added| - 1;
      StacksAppend(subs, added[..last], userId, packageId);
      StacksSnoc(subs + added[..last], subs + added, added[last]);
    }
  }

  // --- The active limit -----------------------------------------------------------------------

  lemma {:induction false} ActiveAppend(subs: seq<Sub>, added: seq<Sub>, userId: nat, packageId: nat, t: int)
    ensures ActiveCount(subs + added, userId, packageId, t) <= ActiveCount(subs, userId, packageId, t) + |added|
  {
    if added == [] {
      assert subs + added == subs;
    } else {
      var last := |added| - 1;
      ActiveAppend(subs, added[..last], userId, packageId, t);
      assert (subs + added)[..|subs + added| - 1] == subs + added[..last];
    }
  }

  // --- Adding the rows ----------------------------------------------------------------------------

  /** The rows a purchase or a grant creates. */
  ghost predicate Delivered(db: DB, added: seq<Sub>, userId: nat, packageId: nat) {
    && userId < |db.users|
    && Numbered(added, userId, packageId, NextIndex(db.subs, userId, packageId))
    && (forall i :: 0 <= i < |added| ==> SubRow(added[i]) && added[i].status == Active)
    && (forall i :: 0 <= i < |added| ==> added[i].unitPrice <= added[i].listPrice)
    && (forall i :: 0 < i < |added| ==> added[i].coupon == None)
    && (forall i :: 0 <= i < |added| && added[i].coupon == None && !added[i].granted ==>
          added[i].unitPrice == added[i].listPrice)
  }

  /** coupons' is coupons with one live coupon of the buyer used on subscription n. */
  ghost predicate CouponSpent(coupons: seq<Coupon>, coupons': seq<Coupon>, couponId: Option<nat>, s: Sub, n: nat) {
    match couponId
    case None => coupons' == coupons && s.coupon == None
    case Some(id) =>
      && id < |coupons| && coupons[id].status == Available && coupons[id].userId == s.userId
      && s.coupon == Some(id)
      && |coupons'| == |coupons| && coupons' == coupons[id := coupons'[id]]
      && coupons'[id] == coupons[id].(status := Used, usedAt := coupons'[id].usedAt, usedOn := Some(n),
                                      saving := s.listPrice - s.unitPrice)
  }

  lemma CouponsDeliver(coupons: seq<Coupon>, subs: seq<Sub>, coupons': seq<Coupon>, added: seq<Sub>,
                       couponId: Option<nat>)
    requires CouponsOk(coupons, subs) && |added| > 0
    requires CouponSpent(coupons, coupons', couponId, added[0], |subs|)
    requires forall i :: 0 <= i < |added| ==> added[i].unitPrice <= added[i].listPrice
    requires forall i :: 0 < i < |added| ==> added[i].coupon == None
    requires forall i :: 0 <= i < |added| && added[i].coupon == None && !added[i].granted ==>
               added[i].unitPrice == added[i].listPrice
    ensures CouponsOk(coupons', subs + added)
  {
    forall c: nat | c < |coupons'| ensures UsedOnce(coupons'[c], c, subs + added) {
      assert UsedOnce(coupons[c], c, subs);
    }
    forall s: nat | s < |subs + added| ensures PricedBy((subs + added)[s], s, coupons') {
      if s < |subs| {
        assert PricedBy(subs[s], s, coupons);
        if subs[s].coupon.Some? {
          assert UsedOnce(coupons[subs[s].coupon.value], subs[s].coupon.value, subs);
        }
      }
    }
  }

  lemma FreshSubsUncounted(db: DB, kind: Kind, id: nat)
    requires LinksOk(db) && id >= |db.subs|
    ensures Count(db.entries, kind, SubLink(id)) == 0
    ensures Count(db.entries, kind, SubRefundLink(id)) == 0
  {
    forall k | 0 <= k < |db.entries|
      ensures db.entries[k].link != SubLink(id) && db.entries[k].link != SubRefundLink(id)
    {
      assert LinkInRange(db, db.entries[k].link);
    }
    Uncounted(db.entries, kind, SubLink(id));
    Uncounted(db.entries, kind, SubRefundLink(id));
  }

  lemma SubsDeliver(db: DB, added: seq<Sub>)
    requires SubsUpTo(db.subs, db.entries, |db.subs|) && TotalsUpTo(db.subs, db.entries, |db.subs|) && LinksOk(db)
    requires forall i :: 0 <= i < |added| ==> SubRow(added[i]) && added[i].status == Active
    ensures SubsUpTo(db.subs + added, db.entries, |db.subs|)
    ensures TotalsUpTo(db.subs + added, db.entries, |db.subs|)
  {
    var subs' := db.subs + added;
    assert subs'[..|db.subs|] == db.subs[..|db.subs|];
    forall i: nat | i < |subs'|
      ensures SubRow(subs'[i])
      ensures Count(db.entries, PurchaseSub, SubLink(i)) == if i < |db.subs| && !subs'[i].granted then 1 else 0
      ensures Count(db.entries, AdminGrantSub, SubLink(i)) == if i < |db.subs| && subs'[i].granted then 1 else 0
      ensures Count(db.entries, AdminRevokeGrant, SubLink(i)) == if subs'[i].status == Revoked then 1 else 0
      ensures Count(db.entries, RefundSub, SubRefundLink(i)) == if subs'[i].status == SubRefunded then 1 else 0
    {
      if i >= |db.subs| {
        FreshSubsUncounted(db, PurchaseSub, i);
        FreshSubsUncounted(db, AdminGrantSub, i);
        FreshSubsUncounted(db, AdminRevokeGrant, i);
        FreshSubsUncounted(db, RefundSub, i);
      }
    }
    forall k | 0 <= k < |db.entries| && db.entries[k].kind == PurchaseSub
      ensures PurchaseEntryOf(db.entries[k], subs')
    {
      assert PurchaseEntryOf(db.entries[k], db.subs);
    }
    forall k | 0 <= k < |db.entries| && db.entries[k].kind == RefundSub
      ensures SubRefundEntryOf(db.entries[k], subs')
    {
      assert SubRefundEntryOf(db.entries[k], db.subs);
    }
  }

  /** The new rows and the used coupon, before any entry is written for them. */
  lemma DeliverRows(db: DB, coupons': seq<Coupon>, added: seq<Sub>, userId: nat, packageId: nat, couponId: Option<nat>)
    requires Inv(db) && Delivered(db, added, userId, packageId) && |added| > 0
    requires CouponSpent(db.coupons, coupons', couponId, added[0], |db.subs|)
    ensures InvUpTo(db.(coupons := coupons', subs := db.subs + added), |db.subs|)
  {
    hide Balanced, OrdersOk, RefundsOk, PaidOk, SubsUpTo, TotalsUpTo, StacksOk, CouponsOk, ReconsOk, OverdraftOk,
         LinksOk, AmountsOk, IndexOk, OwnersOk, CouponSpent, SubRow, MaxIndex, PairCount;
    var db' := db.(coupons := coupons', subs := db.subs + added);
    SubsDeliver(db, added);
    MaxIsCount(db.subs, userId, packageId);
    StacksAppend(db.subs, added, userId, packageId);
    IndexFrame(db, db');
    CouponsDeliver(db.coupons, db.subs, coupons', added, couponId);
    LinksFrame(db, db');
    OwnersDeliver(db, coupons', added, userId, packageId, couponId);
  }

  lemma OwnersDeliver(db: DB, coupons': seq<Coupon>, added: seq<Sub>, userId: nat, packageId: nat,
                      couponId: Option<nat>)
    requires OwnersOk(db) && Delivered(db, added, userId, packageId) && |added| > 0
    requires CouponSpent(db.coupons, coupons', couponId, added[0], |db.subs|)
    ensures OwnersOk(db.(coupons := coupons', subs := db.subs + added))
  {
  }

  // --- Writing the entries -----------------------------------------------------------------------------

  /** The amount the ledger must show for subscription n under this kind. */
  ghost predicate UnitEntry(s: Sub, userId: nat, kind: Kind, amount: int) {
    && s.userId == userId && s.status == Active
    && ((kind == PurchaseSub && !s.granted && amount == -s.unitPrice)
        || (kind == AdminGrantSub && s.granted && amount == 0))
  }

  lemma UnitSubs(subs: seq<Sub>, entries: seq<Entry>, n: nat, e: Entry)
    requires SubsUpTo(subs, entries, n) && n < |subs|
    requires UnitEntry(subs[n], e.userId, e.kind, e.amount) && e.link == SubLink(n)
    ensures SubsUpTo(subs, entries + [e], n + 1)
  {
    hide SubRow, PurchaseEntryOf, SubRefundEntryOf, Count;
    Appended(entries, e);
    UnitIsPurchase(subs, n, e);
  }

  lemma UnitIsPurchase(subs: seq<Sub>, n: nat, e: Entry)
    requires n < |subs| && UnitEntry(subs[n], e.userId, e.kind, e.amount) && e.link == SubLink(n)
    ensures e.kind == PurchaseSub ==> PurchaseEntryOf(e, subs)
    ensures e.kind == PurchaseSub || e.kind == AdminGrantSub
  {
  }

  lemma UnitTotals(subs: seq<Sub>, entries: seq<Entry>, n: nat, e: Entry)
    requires TotalsUpTo(subs, entries, n) && n < |subs| && SubRow(subs[n])
    requires UnitEntry(subs[n], e.userId, e.kind, e.amount)
    ensures TotalsUpTo(subs, entries + [e], n + 1)
  {
    Appended(entries, e);
    assert subs[..n + 1][..n] == subs[..n];
  }

  lemma UnitRow(db: DB, n: nat)
    requires SubsUpTo(db.subs, db.entries, n) && n < |db.subs|
    ensures SubRow(db.subs[n])
  {
  }

  /** One unit's movement brings the ledger up to date with one more subscription. */
  lemma UnitPost(db: DB, n: nat, userId: nat, kind: Kind, amount: int, at: int)
    requires InvUpTo(db, n) && n < |db.subs| && userId < |db.users|
    requires UnitEntry(db.subs[n], userId, kind, amount)
    requires amount >= 0 || db.users[userId].quota + amount >= 0
    ensures var out := Post(db, userId, amount, kind, SubLink(n), at); out.Commit? ==> InvUpTo(out.db, n + 1)
  {
    hide Balanced, OrdersOk, RefundsOk, SubsUpTo, TotalsUpTo, StacksOk, CouponsOk, ReconsOk, OverdraftOk, LinksOk,
         AmountsOk, IndexOk;
    var out := Post(db, userId, amount, kind, SubLink(n), at);
    if out.Commit? {
      var e := out.db.entries[|db.entries|];
      BalancedPost(db.users, db.entries, out.db.users, e);
      OrdersPost(db.orders, db.refunds, db.entries, e);
      UnitSubs(db.subs, db.entries, n, e);
      UnitRow(db, n);
      UnitTotals(db.subs, db.entries, n, e);
      ReconsPost(db.recons, db.entries, e);
      OverdraftPost(db.users, db.entries, out.db.users, e);
      LinksPost(db, out.db, e);
      IndexPost(db, out.db, e);
    }
  }

  /** No entry is linked to a subscription from number n on. */
  ghost predicate UnlinkedFrom(entries: seq<Entry>, n: nat) {
    forall k :: 0 <= k < |entries| && entries[k].link.SubLink? ==> entries[k].link.id < n
  }

  ghost predicate UnitsReady(db: DB, n: nat, userId: nat, kind: Kind, amounts: seq<int>) {
    && userId < |db.users| && n + |amounts| == |db.subs|
    && UnlinkedFrom(db.entries, n)
    && (forall i :: 0 <= i < |amounts| ==> UnitEntry(db.subs[n + i], userId, kind, amounts[i]) && amounts[i] <= 0)
    && (Sum(amounts) < 0 ==> db.users[userId].quota + Sum(amounts) >= 0)
  }

  /** Entries were appended, one user's quota moved by their sum, nothing else changed. */
  ghost predicate UnitsMoved(db: DB, db': DB, userId: nat, amounts: seq<int>) {
    && db' == db.(users := db'.users, entries := db'.entries)
    && |db'.users| == |db.users| && userId < |db.users|
    && (forall u: nat :: u < |db.users| ==> db'.users[u] == Moved(db.users[u], u == userId, Sum(amounts)))
    && |db'.entries| == |db.entries| + |amounts|
    && db'.entries[..|db.entries|] == db.entries
  }

  function Moved(u: User, applies: bool, amount: int): User {
    if applies then u.(quota := u.quota + amount) else u
  }

  lemma MovedNone(db: DB, userId: nat)
    requires userId < |db.users|
    ensures UnitsMoved(db, db, userId, [])
  {
  }

  lemma MovedOnce(db: DB, db1: DB, db2: DB, userId: nat, amounts: seq<int>)
    requires amounts != [] && userId < |db.users|
    requires db1.(entries := db.entries) == AddQuota(db, userId, amounts[0])
    requires |db1.entries| == |db.entries| + 1 && db1.entries[..|db.entries|] == db.entries
    requires UnitsMoved(db1, db2, userId, amounts[1..])
    ensures UnitsMoved(db, db2, userId, amounts)
  {
    assert db2.entries[..|db.entries|] == db2.entries[..|db1.entries|][..|db.entries|];
  }

  /** The rolling entries never hit the ledger index and together move exactly their sum. */
  lemma {:induction false} UnitsCommit(db: DB, n: nat, userId: nat, kind: Kind, amounts: seq<int>, at: int)
    requires UnitsReady(db, n, userId, kind, amounts)
    ensures PostUnits(db, userId, kind, amounts, n, at).Commit?
    ensures UnitsMoved(db, PostUnits(db, userId, kind, amounts, n, at).db, userId, amounts)
    decreases |amounts|
  {
    hide UnitsMoved;
    if amounts == [] {
      MovedNone(db, userId);
    } else {
      UnitReady(db, n, userId, kind, amounts, at);
      var db1 := Post(db, userId, amounts[0], kind, SubLink(n), at).db;
      UnitsCommit(db1, n + 1, userId, kind, amounts[1..], at + 1);
      var db2 := PostUnits(db1, userId, kind, amounts[1..], n + 1, at + 1).db;
      MovedOnce(db, db1, db2, userId, amounts);
    }
  }

  /** Nor do they ever take the quota below zero: the invariant is kept. */
  lemma {:induction false} UnitsKeep(db: DB, n: nat, userId: nat, kind: Kind, amounts: seq<int>, at: int)
    requires InvUpTo(db, n) && UnitsReady(db, n, userId, kind, amounts)
    ensures PostUnits(db, userId, kind, amounts, n, at).Commit?
    ensures Inv(PostUnits(db, userId, kind, amounts, n, at).db)
    decreases |amounts|
  {
    hide InvUpTo;
    if amounts != [] {
      UnitStep(db, n, userId, kind, amounts, at);
      UnitsKeep(Post(db, userId, amounts[0], kind, SubLink(n), at).db, n + 1, userId, kind, amounts[1..], at + 1);
    }
  }

  lemma UnitStep(db: DB, n: nat, userId: nat, kind: Kind, amounts: seq<int>, at: int)
    requires InvUpTo(db, n) && UnitsReady(db, n, userId, kind, amounts) && amounts != []
    ensures Post(db, userId, amounts[0], kind, SubLink(n), at).Commit?
    ensures InvUpTo(Post(db, userId, amounts[0], kind, SubLink(n), at).db, n + 1)
    ensures UnitsReady(Post(db, userId, amounts[0], kind, SubLink(n), at).db, n + 1, userId, kind, amounts[1..])
  {
    hide InvUpTo;
    UnitReady(db, n, userId, kind, amounts, at);
    UnitPost(db, n, userId, kind, amounts[0], at);
  }

  lemma UnitReady(db: DB, n: nat, userId: nat, kind: Kind, amounts: seq<int>, at: int)
    requires UnitsReady(db, n, userId, kind, amounts) && amounts != []
    ensures Post(db, userId, amounts[0], kind, SubLink(n), at).Commit?
    ensures UnitEntry(db.subs[n], userId, kind, amounts[0])
    ensures amounts[0] >= 0 || db.users[userId].quota + amounts[0] >= 0
    ensures UnitsReady(Post(db, userId, amounts[0], kind, SubLink(n), at).db, n + 1, userId, kind, amounts[1..])
  {
    Uncounted(db.entries, kind, SubLink(n));
    SumNonpositive(amounts[1..]);
    assert UnitEntry(db.subs[n + 0], userId, kind, amounts[0]);
    var db1 := Post(db, userId, amounts[0], kind, SubLink(n), at).db;
    forall i | 0 <= i < |amounts[1..]|
      ensures UnitEntry(db1.subs[n + 1 + i], userId, kind, amounts[1..][i]) && amounts[1..][i] <= 0
    {
      assert UnitEntry(db.subs[n + (i + 1)], userId, kind, amounts[i + 1]);
    }
  }

  lemma {:induction false} UnitsOtherKind(db: DB, n: nat, userId: nat, kind: Kind, amounts: seq<int>, at: int,
                                          other: Kind, link: Link)
    requires PostUnits(db, userId, kind, amounts, n, at).Commit? && other != kind
    ensures Count(PostUnits(db, userId, kind, amounts, n, at).db.entries, other, link) == Count(db.entries, other, link)
    decreases |amounts|
  {
    if amounts != [] {
      var db1 := Post(db, userId, amounts[0], kind, SubLink(n), at).db;
      Appended(db.entries, db1.entries[|db.entries|]);
      UnitsOtherKind(db1, n + 1, userId, kind, amounts[1..], at + 1, other, link);
    }
  }

  // --- Prices ---------------------------------------------------------------------------------------------

  lemma PricesSum(first: int, listPrice: int, qty: nat)
    requires qty >= 1
    ensures Sum(Prices(first, listPrice, qty)) == first + listPrice * (qty - 1)
    ensures Sum(Negated(Prices(first, listPrice, qty))) == -(first + listPrice * (qty - 1))
  {
    SumConstant(Prices(first, listPrice, qty)[1..], listPrice);
    SumNegated(Prices(first, listPrice, qty));
  }

  function UnitPrices(subs: seq<Sub>): seq<int> {
    seq(|subs|, i requires 0 <= i < |subs| => subs[i].unitPrice)
  }

  lemma {:induction false} SumNegated(xs: seq<int>)
    ensures Sum(Negated(xs)) == -Sum(xs)
  {
    if xs != [] {
      assert Negated(xs)[1..] == Negated(xs[1..]);
      SumNegated(xs[1..]);
    }
  }

  lemma PriceBounds(c: Coupon, basePrice: int)
    requires basePrice >= 0
    ensures 0 <= EffectivePrice(c, basePrice) <= basePrice
  {
  }

  // --- Purchase ---------------------------------------------------------------------------------------------

  /** Every check of the purchase transaction passes. */
  ghost predicate Purchasable(db: DB, userId: nat, packageId: nat, qty: nat, couponId: Option<nat>, now: int,
                              checkedAt: int)
  {
    && PurchaseRefusal(db, userId, packageId, qty, checkedAt) == None
    && CouponCheck(db, userId, packageId, db.packages[packageId], couponId, now) == None
    && TotalPrice(db, packageId, qty, couponId) <= MAX_INT64
    && (TotalPrice(db, packageId, qty, couponId) > 0 ==>
          TotalPrice(db, packageId, qty, couponId) <= db.users[userId].quota)
  }

  lemma BoughtRows(db: DB, userId: nat, packageId: nat, qty: nat, couponId: Option<nat>, now: int, checkedAt: int)
    requires Purchasable(db, userId, packageId, qty, couponId, now, checkedAt)
    ensures var subs := BoughtSubs(db, userId, packageId, qty, couponId, now);
            && |subs| == qty && Delivered(db, subs, userId, packageId)
            && CouponSpent(db.coupons, WithRows(db, userId, packageId, qty, couponId, now).coupons, couponId, subs[0],
                           |db.subs|)
            && WithRows(db, userId, packageId, qty, couponId, now) ==
               db.(coupons := WithRows(db, userId, packageId, qty, couponId, now).coupons, subs := db.subs + subs)
  {
    hide NextIndex, CouponRefusal, SnapshotBuilds, ActiveCount, EffectivePrice;
    if couponId.Some? {
      PriceBounds(db.coupons[couponId.value], db.packages[packageId].price);
      AcceptedCoupon(db.coupons[couponId.value], userId, packageId, db.packages[packageId], now);
    }
  }

  lemma AcceptedCoupon(c: Coupon, userId: nat, packageId: nat, pkg: Package, now: int)
    requires CouponRefusal(c, userId, packageId, pkg, now) == None
    ensures c.status == Available && c.userId == userId
  {
  }

  lemma BoughtUnits(db: DB, userId: nat, packageId: nat, qty: nat, couponId: Option<nat>, now: int, checkedAt: int)
    requires LinksOk(db) && Purchasable(db, userId, packageId, qty, couponId, now, checkedAt)
    ensures UnitsReady(WithRows(db, userId, packageId, qty, couponId, now), |db.subs|, userId, PurchaseSub,
                       BoughtAmounts(db, packageId, qty, couponId))
  {
    var pkg := db.packages[packageId];
    BoughtRows(db, userId, packageId, qty, couponId, now, checkedAt);
    PricesSum(FirstPrice(db, pkg, couponId), pkg.price, qty);
    if couponId.Some? {
      PriceBounds(db.coupons[couponId.value], pkg.price);
    }
    forall k | 0 <= k < |db.entries| && db.entries[k].link.SubLink? ensures db.entries[k].link.id < |db.subs| {
      assert LinkInRange(db, db.entries[k].link);
    }
  }

  lemma LinksKnown(db: DB)
    requires Inv(db)
    ensures LinksOk(db)
  {
  }

  /** A purchase commits exactly when every check passes: neither the rolling entries nor
      the referral reward can hit the ledger index. It then keeps the invariant. */
  lemma PurchaseKeeps(db: DB, userId: nat, packageId: nat, qty: nat, couponId: Option<nat>, now: int, checkedAt: int,
                      bps: int, windowSeconds: int)
    requires Inv(db)
    ensures var out := Purchase(db, userId, packageId, qty, couponId, now, checkedAt, bps, windowSeconds);
            && (out.Commit? <==> Purchasable(db, userId, packageId, qty, couponId, now, checkedAt))
            && (out.Commit? ==> Inv(out.db))
  {
    hide InvUpTo;
    if Purchasable(db, userId, packageId, qty, couponId, now, checkedAt) {
      DeliverKeeps(db, userId, packageId, qty, couponId, now, checkedAt, bps, windowSeconds);
    }
  }

  /** The rows and the rolling entries of a purchase, before the referral reward. */
  lemma BoughtPosted(db: DB, userId: nat, packageId: nat, qty: nat, couponId: Option<nat>, now: int, checkedAt: int)
    requires Inv(db) && Purchasable(db, userId, packageId, qty, couponId, now, checkedAt)
    ensures var out := PostUnits(WithRows(db, userId, packageId, qty, couponId, now), userId, PurchaseSub,
                                 BoughtAmounts(db, packageId, qty, couponId), |db.subs|, now);
            && out.Commit? && Inv(out.db)
            && UnitsMoved(WithRows(db, userId, packageId, qty, couponId, now), out.db, userId,
                          BoughtAmounts(db, packageId, qty, couponId))
            && Count(out.db.entries, BonusCredit, SubLink(|db.subs|)) == 0
  {
    hide InvUpTo, UnitsReady, Delivered, CouponSpent, UnitsMoved, BoughtSubs, BoughtAmounts, PostUnits;
    var n := |db.subs|;
    var db1 := WithRows(db, userId, packageId, qty, couponId, now);
    var amounts := BoughtAmounts(db, packageId, qty, couponId);
    LinksKnown(db);
    BoughtRows(db, userId, packageId, qty, couponId, now, checkedAt);
    DeliverRows(db, db1.coupons, BoughtSubs(db, userId, packageId, qty, couponId, now), userId, packageId, couponId);
    BoughtUnits(db, userId, packageId, qty, couponId, now, checkedAt);
    UnitsKeep(db1, n, userId, PurchaseSub, amounts, now);
    UnitsCommit(db1, n, userId, PurchaseSub, amounts, now);
    FreshSubsUncounted(db, BonusCredit, n);
    UnitsOtherKind(db1, n, userId, PurchaseSub, amounts, now, BonusCredit, SubLink(n));
  }

  lemma DeliverKeeps(db: DB, userId: nat, packageId: nat, qty: nat, couponId: Option<nat>, now: int, checkedAt: int,
                     bps: int, windowSeconds: int)
    requires Inv(db) && Purchasable(db, userId, packageId, qty, couponId, now, checkedAt)
    ensures var out := Deliver(db, userId, packageId, qty, couponId, now, bps, windowSeconds);
            out.Commit? && Inv(out.db)
  {
    hide InvUpTo, BoughtAmounts, PostUnits, SpendReward;
    BoughtPosted(db, userId, packageId, qty, couponId, now, checkedAt);
    var db2 := PostUnits(WithRows(db, userId, packageId, qty, couponId, now), userId, PurchaseSub,
                         BoughtAmounts(db, packageId, qty, couponId), |db.subs|, now).db;
    var total := TotalPrice(db, packageId, qty, couponId);
    SpendRewardKeeps(db2, |db2.subs|, userId, total, bps, windowSeconds, now, SubLink(|db.subs|));
    SpendRewardFrame(db2, userId, total, bps, windowSeconds, now, SubLink(|db.subs|));
    SpendRewardCommits(db2, userId, total, bps, windowSeconds, now, SubLink(|db.subs|));
  }

  lemma UnitPricesOf(prices: seq<int>, subs: seq<Sub>)
    requires |subs| == |prices| && forall i :: 0 <= i < |subs| ==> subs[i].unitPrice == prices[i]
    ensures UnitPrices(subs) == prices
  {
  }

  lemma BoughtPrices(db: DB, userId: nat, packageId: nat, qty: nat, couponId: Option<nat>, now: int)
    requires packageId < |db.packages| && qty >= 1
    ensures Sum(UnitPrices(BoughtSubs(db, userId, packageId, qty, couponId, now)))
            == TotalPrice(db, packageId, qty, couponId)
    ensures Sum(BoughtAmounts(db, packageId, qty, couponId)) == -TotalPrice(db, packageId, qty, couponId)
  {
    var pkg := db.packages[packageId];
    var prices := Prices(FirstPrice(db, pkg, couponId), pkg.price, qty);
    UnitPricesOf(prices, BoughtSubs(db, userId, packageId, qty, couponId, now));
    PricesSum(FirstPrice(db, pkg, couponId), pkg.price, qty);
  }

  /** What the used coupon records as saved by this purchase. */
  function SavedBy(db: DB, couponId: Option<nat>): int {
    if couponId.Some? && couponId.value < |db.coupons| then db.coupons[couponId.value].saving else 0
  }

  /** A committed purchase debits the buyer exactly the prices recorded on the subscriptions it
      creates, and those prices together with the coupon's recorded saving are the list price
      of all units: whatever the coupon takes off one side shows on the other. */
  lemma PurchaseConserves(db: DB, userId: nat, packageId: nat, qty: nat, couponId: Option<nat>, now: int,
                          checkedAt: int, bps: int, windowSeconds: int, db': DB)
    requires Inv(db)
    requires Purchase(db, userId, packageId, qty, couponId, now, checkedAt, bps, windowSeconds) == Commit(db')
    ensures userId < |db.users| == |db'.users| && packageId < |db.packages|
    ensures |db'.subs| == |db.subs| + qty && db'.subs[..|db.subs|] == db.subs
    ensures var prices := UnitPrices(db'.subs[|db.subs|..]);
            && db'.users[userId].quota == db.users[userId].quota - Sum(prices)
            && Sum(prices) + SavedBy(db', couponId) == qty * db.packages[packageId].price
            && (Sum(prices) > 0 ==> db'.users[userId].quota >= 0)
  {
    hide InvUpTo;
    PurchaseKeeps(db, userId, packageId, qty, couponId, now, checkedAt, bps, windowSeconds);
    BoughtConserves(db, userId, packageId, qty, couponId, now, checkedAt, bps, windowSeconds);
  }

  lemma BoughtConserves(db: DB, userId: nat, packageId: nat, qty: nat, couponId: Option<nat>, now: int,
                        checkedAt: int, bps: int, windowSeconds: int)
    requires Inv(db) && Purchasable(db, userId, packageId, qty, couponId, now, checkedAt)
    ensures var out := Deliver(db, userId, packageId, qty, couponId, now, bps, windowSeconds);
            var added := BoughtSubs(db, userId, packageId, qty, couponId, now);
            && out.Commit? && out.db.subs == db.subs + added && |added| == qty
            && |out.db.users| == |db.users|
            && out.db.users[userId].quota == db.users[userId].quota - Sum(UnitPrices(added))
            && Sum(UnitPrices(added)) + SavedBy(out.db, couponId) == qty * db.packages[packageId].price
            && (Sum(UnitPrices(added)) > 0 ==> out.db.users[userId].quota >= 0)
  {
    hide InvUpTo, PostUnits, SpendReward;
    BoughtPosted(db, userId, packageId, qty, couponId, now, checkedAt);
    DeliverKeeps(db, userId, packageId, qty, couponId, now, checkedAt, bps, windowSeconds);
    var db2 := PostUnits(WithRows(db, userId, packageId, qty, couponId, now), userId, PurchaseSub,
                         BoughtAmounts(db, packageId, qty, couponId), |db.subs|, now).db;
    var total := TotalPrice(db, packageId, qty, couponId);
    SpendRewardFrame(db2, userId, total, bps, windowSeconds, now, SubLink(|db.subs|));
    RewardSparesSpender(db2, userId, total, bps, windowSeconds, now, SubLink(|db.subs|));
    BoughtPrices(db, userId, packageId, qty, couponId, now);
    SavingBalances(db, userId, packageId, qty, couponId, now, checkedAt);
  }

  lemma SavingBalances(db: DB, userId: nat, packageId: nat, qty: nat, couponId: Option<nat>, now: int, checkedAt: int)
    requires Purchasable(db, userId, packageId, qty, couponId, now, checkedAt)
    ensures TotalPrice(db, packageId, qty, couponId)
            + SavedBy(WithRows(db, userId, packageId, qty, couponId, now), couponId)
            == qty * db.packages[packageId].price
  {
    var price := db.packages[packageId].price;
    assert price * (qty - 1) + price == qty * price;
  }

  /** The coupon's unit is sold at or above the cost floor exactly when the list price is;
      with no floor set the lower bound is the list price itself, so a coupon saves nothing. */
  lemma CouponRespectsFloor(db: DB, userId: nat, packageId: nat, qty: nat, couponId: nat, now: int, checkedAt: int)
    requires Purchasable(db, userId, packageId, qty, Some(couponId), now, checkedAt)
    ensures var pkg := db.packages[packageId];
            var first := FirstPrice(db, pkg, Some(couponId));
            && (pkg.costFloor > 0 ==> (first >= pkg.costFloor <==> pkg.price >= pkg.costFloor))
            && (pkg.costFloor <= 0 ==> first == pkg.price)
            && first == BoughtSubs(db, userId, packageId, qty, Some(couponId), now)[0].unitPrice
  {
  }

  // --- The limit after a commit ---------------------------------------------------------------------------

  /** After a purchase commits, the buyer's unexpired active subscriptions of the package are
      within the limit of the package row read inside the transaction. */
  lemma PurchaseWithinLimit(db: DB, userId: nat, packageId: nat, qty: nat, couponId: Option<nat>, now: int,
                            checkedAt: int, bps: int, windowSeconds: int)
    requires Inv(db)
    ensures var out := Purchase(db, userId, packageId, qty, couponId, now, checkedAt, bps, windowSeconds);
            out.Commit? && EffectiveMax(db.packages[packageId]) > 0 ==>
              ActiveCount(out.db.subs, userId, packageId, checkedAt) <= EffectiveMax(db.packages[packageId])
  {
    hide InvUpTo;
    var out := Purchase(db, userId, packageId, qty, couponId, now, checkedAt, bps, windowSeconds);
    if out.Commit? {
      PurchaseKeeps(db, userId, packageId, qty, couponId, now, checkedAt, bps, windowSeconds);
      BoughtConserves(db, userId, packageId, qty, couponId, now, checkedAt, bps, windowSeconds);
      ActiveAppend(db.subs, BoughtSubs(db, userId, packageId, qty, couponId, now), userId, packageId, checkedAt);
    }
  }

  // --- Grant --------------------------------------------------------------------------------------------------

  lemma GrantRows(db: DB, userId: nat, packageId: nat, qty: nat, seconds: int, now: int, checkedAt: int)
    requires LinksOk(db) && GrantRefusal(db, userId, packageId, qty, checkedAt) == None
    ensures var subs := GrantedSubs(db, userId, packageId, qty, seconds, now);
            && |subs| == qty && Delivered(db, subs, userId, packageId)
            && CouponSpent(db.coupons, db.coupons, None, subs[0], |db.subs|)
            && UnitsReady(db.(subs := db.subs + subs), |db.subs|, userId, AdminGrantSub, Zeros(qty))
  {
    SumConstant(Zeros(qty), 0);
    forall k | 0 <= k < |db.entries| && db.entries[k].link.SubLink? ensures db.entries[k].link.id < |db.subs| {
      assert LinkInRange(db, db.entries[k].link);
    }
  }

  ghost predicate GrantEffect(db: DB, db': DB, userId: nat, packageId: nat, qty: nat, seconds: int, now: int) {
    && Inv(db') && db'.users == db.users && packageId < |db.packages|
    && db'.subs == db.subs + GrantedSubs(db, userId, packageId, qty, seconds, now)
    && |db'.entries| == |db.entries| + qty
  }

  /** A grant commits exactly when its checks pass; it moves no quota, writes one zero entry
      per unit and keeps the invariant. */
  lemma GrantKeeps(db: DB, userId: nat, packageId: nat, qty: nat, seconds: int, now: int, checkedAt: int)
    requires Inv(db)
    ensures Grant(db, userId, packageId, qty, seconds, now, checkedAt).Commit? <==>
            GrantRefusal(db, userId, packageId, qty, checkedAt) == None
    ensures GrantRefusal(db, userId, packageId, qty, checkedAt) == None ==>
              GrantEffect(db, Grant(db, userId, packageId, qty, seconds, now, checkedAt).db, userId, packageId, qty,
                          seconds, now)
  {
    hide InvUpTo, Delivered, CouponSpent, UnitsReady, PostUnits, GrantedSubs;
    if GrantRefusal(db, userId, packageId, qty, checkedAt) == None {
      var subs := GrantedSubs(db, userId, packageId, qty, seconds, now);
      LinksKnown(db);
      GrantRows(db, userId, packageId, qty, seconds, now, checkedAt);
      DeliverRows(db, db.coupons, subs, userId, packageId, None);
      var db1 := db.(subs := db.subs + subs);
      assert db1 == db.(coupons := db.coupons, subs := db.subs + subs);
      UnitsKeep(db1, |db.subs|, userId, AdminGrantSub, Zeros(qty), now);
      UnitsCommit(db1, |db.subs|, userId, AdminGrantSub, Zeros(qty), now);
      SumConstant(Zeros(qty), 0);
    }
  }

  /** The user's unexpired active subscriptions of the package are within the limit, if there is one. */
  predicate WithinLimit(db: DB, pkg: Package, userId: nat, packageId: nat, checkedAt: int) {
    EffectiveMax(pkg) > 0 ==> ActiveCount(db.subs, userId, packageId, checkedAt) <= EffectiveMax(pkg)
  }

  lemma GrantWithinLimit(db: DB, userId: nat, packageId: nat, qty: nat, seconds: int, now: int, checkedAt: int,
                         db': DB)
    requires Inv(db) && Grant(db, userId, packageId, qty, seconds, now, checkedAt) == Commit(db')
    ensures packageId < |db.packages| && WithinLimit(db', db.packages[packageId], userId, packageId, checkedAt)
  {
    hide InvUpTo, Grant, GrantedSubs, ActiveCount;
    GrantKeeps(db, userId, packageId, qty, seconds, now, checkedAt);
    GrantedCount(db, userId, packageId, qty, seconds, now);
    ActiveAppend(db.subs, GrantedSubs(db, userId, packageId, qty, seconds, now), userId, packageId, checkedAt);
  }

  lemma GrantedCount(db: DB, userId: nat, packageId: nat, qty: nat, seconds: int, now: int)
    requires packageId < |db.packages|
    ensures |GrantedSubs(db, userId, packageId, qty, seconds, now)| == qty
  {
  }

  /** Everything a grant delivers comes from the fresh package row, except the length: that
      is still the one of the copy read before the transaction. The new subscriptions run for
      the fresh period exactly when the copy's period has not changed since. */
  lemma GrantLengthIsStale(db: DB, userId: nat, packageId: nat, qty: nat, stale: Package, now: int, checkedAt: int,
                           db': DB)
    requires Inv(db)
    requires Grant(db, userId, packageId, qty, GrantSeconds(stale, None), now, checkedAt) == Commit(db')
    ensures packageId < |db.packages| && qty >= 1 && |db'.subs| == |db.subs| + qty
    ensures forall i :: |db.subs| <= i < |db'.subs| ==>
              (db'.subs[i].endAt == now + db.packages[packageId].period * 1_000_000
               <==> stale.period == db.packages[packageId].period)
  {
    hide InvUpTo, Grant;
    GrantKeeps(db, userId, packageId, qty, GrantSeconds(stale, None), now, checkedAt);
  }
}
