/** Bonuses and spend rewards keep the invariant; when the ledger index blocks them. */
module RewardProofs {
  import opened Options
  import opened Money
  import opened Model
  import opened Ledger
  import opened Rewards
  import opened Charges
  import opened Invariants
  import opened TopupProofs

  // --- Paid-spend reward -------------------------------------------------------------

  /** Only the spender's paid part went down, and not below zero. */
  ghost predicate PaidLowered(users: seq<User>, users': seq<User>) {
    && SameQuotas(users, users')
    && (forall u: nat :: u < |users| ==> users'[u].paidQuota <= users[u].paidQuota)
    && (forall u: nat :: u < |users| ==> users[u].paidQuota >= 0 ==> users'[u].paidQuota >= 0)
  }

  lemma PaidLoweredKeeps(db: DB, n: nat, users': seq<User>)
    requires InvUpTo(db, n) && PaidLowered(db.users, users')
    ensures InvUpTo(db.(users := users'), n)
  {
    hide Balanced, OrdersOk, RefundsOk, SubsUpTo, TotalsUpTo, StacksOk, CouponsOk, ReconsOk, LinksOk, AmountsOk,
         IndexOk;
    BalancedFrame(db.users, db.entries, users');
    LinksFrame(db, db.(users := users'));
    IndexFrame(db, db.(users := users'));
  }

  /** The reward is a share of the paid part that the spend used up. */
  lemma RewardBounds(u: User, userId: nat, spend: int, bps: int, windowSeconds: int, at: int)
    ensures 0 <= RewardAmount(u, userId, spend, bps, windowSeconds, at)
    ensures spend > 0 && u.paidQuota >= 0 ==>
              RewardAmount(u, userId, spend, bps, windowSeconds, at) <= EligibleSpend(u, spend) <= spend
    ensures u.paidQuota >= 0 ==> 0 <= RemainingPaid(u) <= u.paidQuota
  {
    var x := EligibleSpend(u, spend);
    if x > 0 {
      BpsFloor(x, RewardBps(bps));
    }
  }

  lemma BpsFloor(amount: int, bps: int)
    requires 0 < amount && 0 <= bps <= BASIS_POINTS
    ensures 0 <= BasisPointsFloor(amount, bps) <= amount
  {
    ProductMonotone(amount, 0, bps);
    ProductMonotone(amount, bps, BASIS_POINTS);
    DivisionBounds(amount * bps, BASIS_POINTS);
  }

  /** Rewards use the paid part last: what is used up is exactly the shortfall of the
      balance against the paid part, so spending unpaid credit never costs paid credit. */
  lemma PaidPartIsFloor(u: User, spend: int)
    requires u.paidQuota >= 0 && spend > 0
    ensures RemainingPaid(u) <= u.quota || RemainingPaid(u) == 0
    ensures u.quota >= u.paidQuota ==> RemainingPaid(u) == u.paidQuota && EligibleSpend(u, spend) == 0
    ensures 0 <= u.quota < u.paidQuota ==> RemainingPaid(u) == u.quota
  {
  }

  lemma SpendRewardKeeps(db: DB, n: nat, userId: nat, spend: int, bps: int, windowSeconds: int, at: int, link: Link)
    requires InvUpTo(db, n) && LinkInRange(db, link)
    requires link.EntryLink? ==> Reconciled(db.recons, link.id)
    ensures var out := SpendReward(db, userId, spend, bps, windowSeconds, at, link); out.Commit? ==> InvUpTo(out.db, n)
  {
    hide InvUpTo;
    if spend > 0 && userId < |db.users| {
      var u := db.users[userId];
      RewardBounds(u, userId, spend, bps, windowSeconds, at);
      var users' := db.users[userId := u.(paidQuota := RemainingPaid(u))];
      PaidLoweredKeeps(db, n, users');
      var reward := RewardAmount(u, userId, spend, bps, windowSeconds, at);
      if reward > 0 {
        var db1 := db.(users := users');
        NeutralPost(db1, n, u.referredBy.value, reward, BonusCredit, link, at);
      }
    }
  }

  /** Nothing but user rows and at most one ledger entry changes. */
  lemma SpendRewardFrame(db: DB, userId: nat, spend: int, bps: int, windowSeconds: int, at: int, link: Link)
    ensures var out := SpendReward(db, userId, spend, bps, windowSeconds, at, link);
            out.Commit? ==>
              && out.db == db.(users := out.db.users, entries := out.db.entries)
              && |out.db.users| == |db.users|
              && |db.entries| <= |out.db.entries| <= |db.entries| + 1
              && out.db.entries[..|db.entries|] == db.entries
  {
    hide RewardAmount, RemainingPaid, Count;
    if userId < |db.users| && RewardAmount(db.users[userId], userId, spend, bps, windowSeconds, at) > 0 {
      PayeeNamed(db.users[userId], userId, spend, bps, windowSeconds, at);
    }
  }

  lemma SpendRewardCommits(db: DB, userId: nat, spend: int, bps: int, windowSeconds: int, at: int, link: Link)
    requires userId < |db.users| && !LinkTaken(db, BonusCredit, link)
    ensures SpendReward(db, userId, spend, bps, windowSeconds, at, link).Commit?
  {
  }

  /** The reward goes to somebody else. */
  lemma RewardSparesSpender(db: DB, userId: nat, spend: int, bps: int, windowSeconds: int, at: int, link: Link)
    requires userId < |db.users|
    ensures var out := SpendReward(db, userId, spend, bps, windowSeconds, at, link);
            out.Commit? ==> |out.db.users| == |db.users| && out.db.users[userId].quota == db.users[userId].quota
  {
  }

  // --- Registration ----------------------------------------------------------------------

  lemma NewUserKeeps(db: DB, added: User)
    requires Inv(db) && added.quota == 0 && added.paidQuota == 0
    ensures Inv(db.(users := db.users + [added]))
  {
    hide Balanced, OrdersOk, RefundsOk, PaidOk, SubsUpTo, TotalsUpTo, StacksOk, CouponsOk, ReconsOk, LinksOk, AmountsOk,
         IndexOk, OverdraftOk;
    BalancedNewUser(db.users, db.entries, added);
    NewUserPaid(db, added);
    NewUserOverdraft(db.users, db.entries, added);
    LinksFrame(db, db.(users := db.users + [added]));
    IndexFrame(db, db.(users := db.users + [added]));
  }

  lemma NewUserPaid(db: DB, added: User)
    requires Inv(db) && added.paidQuota == 0
    ensures PaidOk(db.users + [added], db.orders)
  {
    hide InvUpTo, OrderRow;
    forall i: nat | i < |db.orders| ensures OrderRow(db.orders[i]) {
      OrderKnown(db, i);
    }
    NetPaidNonneg(db.orders, |db.users|);
    PaidKnown(db);
  }

  lemma PaidKnown(db: DB)
    requires Inv(db)
    ensures PaidOk(db.users, db.orders)
  {
  }

  lemma NewUserOverdraft(users: seq<User>, entries: seq<Entry>, added: User)
    requires OverdraftOk(users, entries) && added.quota == 0
    ensures OverdraftOk(users + [added], entries)
  {
  }

  lemma BonusKeeps(db: DB, userId: nat, amount: nat, link: Link, at: int)
    requires Inv(db) && LinkInRange(db, link) && !link.EntryLink?
    ensures var out := Bonus(db, userId, amount, link, at); out.Commit? ==> Inv(out.db)
  {
    hide InvUpTo;
    if amount > 0 {
      NeutralPost(db, |db.subs|, userId, amount, BonusCredit, link, at);
    }
  }

  lemma CouponAppendKeeps(db: DB, c: Coupon)
    requires Inv(db) && c.status == Available && c.usedOn == None && c.userId < |db.users|
    ensures Inv(db.(coupons := db.coupons + [c]))
  {
    hide Balanced, OrdersOk, RefundsOk, PaidOk, SubsUpTo, TotalsUpTo, StacksOk, ReconsOk, LinksOk, AmountsOk, IndexOk,
         OverdraftOk;
    LinksFrame(db, db.(coupons := db.coupons + [c]));
    IndexFrame(db, db.(coupons := db.coupons + [c]));
  }

  /** Registration always commits, whatever the ledger index: the link to a new user is new. */
  lemma CreateUserKeeps(db: DB, ordinary: bool, signupBonus: nat, template: Option<CouponTemplate>,
                        expiresAt: Option<int>, at: int)
    requires Inv(db)
    ensures CreateUser(db, ordinary, signupBonus, template, expiresAt, at).Commit?
    ensures Inv(CreateUser(db, ordinary, signupBonus, template, expiresAt, at).db)
  {
    hide InvUpTo;
    var id := |db.users|;
    var added := User(0, 0, None, None, ordinary, true);
    var db1 := db.(users := db.users + [added]);
    NewUserKeeps(db, added);
    forall k | 0 <= k < |db.entries| ensures db.entries[k].link != UserLink(id) {
      LinkKnown(db, |db.subs|, k);
    }
    Uncounted(db.entries, BonusCredit, UserLink(id));
    BonusKeeps(db1, id, signupBonus, UserLink(id), at);
    var db2 := Bonus(db1, id, signupBonus, UserLink(id), at).db;
    if template.Some? && template.value.enabled {
      CouponAppendKeeps(db2, FromTemplate(id, template.value, expiresAt));
    }
  }

  // --- Referral bonuses ---------------------------------------------------------------------

  lemma RelateKeeps(db: DB, userId: nat, referrer: nat, at: int)
    requires Inv(db) && userId < |db.users|
    ensures Inv(db.(users := db.users[userId := Relate(db.users[userId], referrer, at)]))
  {
    hide InvUpTo;
    PaidLoweredKeeps(db, |db.subs|, db.users[userId := Relate(db.users[userId], referrer, at)]);
  }

  lemma ReferralBonusesKeep(db: DB, newUser: nat, referrer: nat, referrerBonus: nat, refereeBonus: nat, at: int)
    requires Inv(db)
    ensures var out := ReferralBonuses(db, newUser, referrer, referrerBonus, refereeBonus, at);
            out.Commit? ==> Inv(out.db)
  {
    hide InvUpTo;
    if newUser < |db.users| && referrer < |db.users| && newUser != referrer {
      RelateKeeps(db, newUser, referrer, at);
      var db1 := db.(users := db.users[newUser := Relate(db.users[newUser], referrer, at)]);
      BonusKeeps(db1, referrer, referrerBonus, UserLink(newUser), at);
      var out2 := Bonus(db1, referrer, referrerBonus, UserLink(newUser), at);
      if out2.Commit? {
        BonusKeeps(out2.db, newUser, refereeBonus, UserLink(referrer), at);
      }
    }
  }

  /** The bonuses are paid exactly when the index has no earlier bonus linked to the new
      user (for the referrer's entry) nor to the referrer (for the new user's entry). */
  lemma ReferralBonusesCommit(db: DB, newUser: nat, referrer: nat, referrerBonus: nat, refereeBonus: nat, at: int)
    requires newUser < |db.users| && referrer < |db.users| && newUser != referrer
    ensures ReferralBonuses(db, newUser, referrer, referrerBonus, refereeBonus, at).Commit? <==>
            && (referrerBonus > 0 ==> !LinkTaken(db, BonusCredit, UserLink(newUser)))
            && (refereeBonus > 0 ==> !LinkTaken(db, BonusCredit, UserLink(referrer)))
  {
    if referrerBonus > 0 && !LinkTaken(db, BonusCredit, UserLink(newUser)) {
      var db1 := db.(users := db.users[newUser := Relate(db.users[newUser], referrer, at)]);
      var db2 := Post(db1, referrer, referrerBonus, BonusCredit, UserLink(newUser), at).db;
      Appended(db.entries, db2.entries[|db.entries|]);
    }
  }
}
