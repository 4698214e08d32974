/** What a spend of balance does to every user row, in numbers: how much of the paid part it uses up,
    who is rewarded, within which time and at which rate. */
module RewardDecisions {
  import opened Options
  import opened Money
  import opened Model
  import opened Rewards
  import opened Charges
  import opened Invariants
  import opened RewardProofs
  import opened ChargeProofs
  import opened Runs
  import opened Movements

  // --- The reference ---------------------------------------------------------------------------

  function Min(x: int, y: int): int {
    if x < y then x else y
  }

  function Max(x: int, y: int): int {
    if x < y then y else x
  }

  /** How long after the referral a spend still counts: the configured seconds, at most a year; 30 days
      where less than a minute is configured. */
  function WindowMicros(seconds: int): int {
    1_000_000 * (if seconds < 60 then 2_592_000 else Min(seconds, 31_536_000))
  }

  /** The part of the paid credit that a balance of quota still covers. */
  function StillCovered(quota: int, paid: int): int {
    Max(0, Min(quota, paid))
  }

  /** The spend's share of paid credit: paid credit is used last. */
  function PaidSpent(quota: int, paid: int, spend: int): int {
    if paid > 0 && spend > 0 then Min(spend, paid - StillCovered(quota, paid)) else 0
  }

  /** v referred this user, not himself, and the spend comes in time. */
  ghost predicate InTime(u: User, userId: nat, v: nat, at: int, seconds: int) {
    && u.referredBy == Some(v) && v != userId
    && u.referredAt.Some? && at <= u.referredAt.value + WindowMicros(seconds)
  }

  /** r is the given basis points, held within [0, 10000], of the paid credit used, rounded down. */
  ghost predicate RewardOf(r: int, used: int, bps: int) {
    10_000 * r <= used * Max(0, Min(bps, 10_000)) < 10_000 * (r + 1)
  }

  /** The whole user table before and after a spend: the spender is debited and keeps as paid what the
      new balance covers; the referrer in time, if ordinary and enabled, gains the reward; nobody else
      changes. */
  ghost predicate SpendEffect(users: seq<User>, users': seq<User>, spender: nat, spend: int, bps: int, seconds: int,
                              at: int, r: int)
  {
    && |users'| == |users| && spender < |users|
    && var u := users[spender];
       && RewardOf(r, PaidSpent(u.quota - spend, u.paidQuota, spend), bps)
       && users'[spender] == u.(quota := u.quota - spend,
                                paidQuota := if spend > 0 && u.paidQuota > 0
                                             then StillCovered(u.quota - spend, u.paidQuota) else u.paidQuota)
       && (forall v: nat :: v < |users| && v != spender ==>
             users'[v] == if InTime(u, spender, v, at, seconds) && users[v].ordinary && users[v].enabled
                          then users[v].(quota := users[v].quota + r) else users[v])
  }

  // --- The reward amount --------------------------------------------------------------------------

  lemma RateOf(used: int, bps: int) returns (r: int)
    requires used >= 0
    ensures RewardOf(r, used, bps) && r >= 0
    ensures used > 0 ==> r == BasisPointsFloor(used, RewardBps(bps))
    ensures used == 0 ==> r == 0
  {
    var rate := Max(0, Min(bps, 10_000));
    r := used * rate / 10_000;
    ProductMonotone(used, 0, rate);
    DivisionBounds(used * rate, 10_000);
  }

  /** The amount paid out is the one of the reference, and 0 unless somebody else referred in time. */
  lemma AmountExactly(u: User, userId: nat, spend: int, bps: int, seconds: int, at: int) returns (r: int)
    requires spend >= 0
    ensures RewardOf(r, PaidSpent(u.quota, u.paidQuota, spend), bps) && r >= 0
    ensures RewardAmount(u, userId, spend, bps, seconds, at)
            == if u.referredBy.Some? && InTime(u, userId, u.referredBy.value, at, seconds) then r else 0
  {
    r := RateOf(PaidSpent(u.quota, u.paidQuota, spend), bps);
    hide BasisPointsFloor, RewardOf, RewardBps;
  }

  lemma CoveredIsRemaining(u: User)
    ensures u.paidQuota > 0 ==> RemainingPaid(u) == StillCovered(u.quota, u.paidQuota)
    ensures u.paidQuota <= 0 ==> RemainingPaid(u) == u.paidQuota
  {
  }

  /** The expected rows of a spend are those of the reference. */
  lemma SpentExactly(db: DB, spender: nat, spend: nat, env: Env, at: int, users': seq<User>) returns (r: int)
    requires |users'| == |db.users| && spender < |db.users|
    requires forall u: nat :: u < |db.users| ==> users'[u] == Spent(db, spender, spend, env, at, u)
    ensures SpendEffect(db.users, users', spender, spend, env.bps, env.windowSeconds, at, r) && r >= 0
  {
    var charged := db.users[spender].(quota := db.users[spender].quota - spend);
    r := AmountExactly(charged, spender, spend, env.bps, env.windowSeconds, at);
    CoveredIsRemaining(charged);
    hide RewardAmount, RemainingPaid, RewardOf, WindowMicros, PaidSpent, StillCovered;
  }

  // --- Every way of spending ------------------------------------------------------------------------

  /** The reward transaction itself, run on a balance that was already debited. */
  lemma RewardExactly(db: DB, db1: DB, spender: nat, spend: nat, env: Env, at: int, link: Link, db': DB)
    returns (r: int)
    requires Debited(db, db1, spender, spend)
    requires SpendReward(db1, spender, spend, env.bps, env.windowSeconds, at, link) == Commit(db')
    ensures SpendEffect(db.users, db'.users, spender, spend, env.bps, env.windowSeconds, at, r) && r >= 0
  {
    hide SpendReward, Spent, Debited;
    SpentRows(db, db1, spender, spend, env, at, link, db');
    DebitedRange(db, db1, spender, spend);
    r := SpentExactly(db, spender, spend, env, at, db'.users);
  }

  lemma DebitedRange(db: DB, db1: DB, spender: nat, spend: int)
    requires Debited(db, db1, spender, spend)
    ensures spender < |db.users|
  {
  }

  /** Over every run: an API turn that the balance covers is a spend of exactly its cost; one that it
      does not cover changes no row and leaves the cost on a pending entry. */
  lemma TurnSpends(linkIndex: bool, steps: seq<Step>, userId: nat, cost: nat, logId: Option<nat>, env: Env)
    returns (r: int)
    requires Perform(Run(linkIndex, steps).db, Consume(userId, cost, logId), env).Commit?
    ensures var db := Run(linkIndex, steps).db;
            var db' := Perform(db, Consume(userId, cost, logId), env).db;
            && userId < |db.users|
            && (if db.users[userId].quota >= cost
                then SpendEffect(db.users, db'.users, userId, cost, env.bps, env.windowSeconds, env.now, r)
                else db'.users == db.users
                     && db'.entries == db.entries + [Entry(userId, ApiUsagePending, PendingReconcile, 0,
                                                           db.users[userId].quota,
                                                           if logId.None? then NoLink else ApiLogLink(logId.value),
                                                           cost, env.now)])
  {
    hide Run, SpendReward, Spent, SpendEffect;
    var db := Run(linkIndex, steps).db;
    var db' := Perform(db, Consume(userId, cost, logId), env).db;
    ConsumeRows(db, userId, cost, logId, env, db');
    r := 0;
    if userId < |db.users| && db.users[userId].quota >= cost {
      r := SpentExactly(db, userId, cost, env, env.now, db'.users);
    }
  }

  /** Over every run: a charged reconciliation is a spend of exactly the estimated cost, by the owner of
      the entry, at the time of the entry. */
  lemma ReconcileSpends(linkIndex: bool, steps: seq<Step>, id: nat, env: Env) returns (r: int)
    requires id < |Run(linkIndex, steps).db.entries|
    requires var db := Run(linkIndex, steps).db;
             Reconcile(db, id, db.entries[id].userId, Charged, env.now, env.bps, env.windowSeconds).Commit?
    ensures var db := Run(linkIndex, steps).db;
            var e := db.entries[id];
            var db' := Reconcile(db, id, e.userId, Charged, env.now, env.bps, env.windowSeconds).db;
            && SpendEffect(db.users, db'.users, e.userId, e.estimatedCost, env.bps, env.windowSeconds,
                           e.occurredAt, r)
            && db.users[e.userId].quota >= e.estimatedCost > 0
  {
    hide InvUpTo, Run, Reconcile, Spent, SpendEffect;
    var db := Run(linkIndex, steps).db;
    Reachable(linkIndex, steps);
    var e := db.entries[id];
    var db' := Reconcile(db, id, e.userId, Charged, env.now, env.bps, env.windowSeconds).db;
    ReconcileKeeps(db, id, Charged, env.now, env.bps, env.windowSeconds);
    ReconcileRows(db, id, e, Charged, env, db');
    r := SpentExactly(db, e.userId, e.estimatedCost, env, e.occurredAt, db'.users);
  }

  // --- Registration -----------------------------------------------------------------------------------

  /** A registration hands out one welcome coupon with the template's terms exactly when there is an
      enabled template, and touches no other coupon. */
  lemma WelcomeCoupon(db: DB, ordinary: bool, signupBonus: nat, template: Option<CouponTemplate>,
                      expiresAt: Option<int>, at: int)
    requires Inv(db)
    ensures CreateUser(db, ordinary, signupBonus, template, expiresAt, at).Commit?
    ensures CreateUser(db, ordinary, signupBonus, template, expiresAt, at).db.coupons
            == if template.Some? && template.value.enabled
               then db.coupons + [Coupon(|db.users|, Available, template.value.fixedPrice, template.value.value,
                                         template.value.packages, expiresAt, None, None, 0)]
               else db.coupons
  {
    hide InvUpTo;
    CreateUserKeeps(db, ordinary, signupBonus, template, expiresAt, at);
  }

  /** Referral bonuses need two different existing users. */
  lemma ReferralEligible(db: DB, newUser: nat, referrer: nat, referrerBonus: nat, refereeBonus: nat, at: int)
    ensures ReferralBonuses(db, newUser, referrer, referrerBonus, refereeBonus, at) == Abort(NotEligible)
            <==> newUser >= |db.users| || referrer >= |db.users| || newUser == referrer
  {
  }
}
