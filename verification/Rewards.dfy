/** Signup and referral money: bonuses on registration and the paid-spend reward. */
module Rewards {
  import opened Options
  import opened Model
  import opened Ledger

  function Clamp(x: int, lo: int, hi: int): int {
    if x < lo then lo else if x > hi then hi else x
  }

  function RewardBps(bps: int): int {
    Clamp(bps, 0, BASIS_POINTS)
  }

  function RewardWindow(seconds: int): int {
    if seconds < 60 then 30 * 24 * 60 * 60
    else if seconds > 365 * 24 * 60 * 60 then 365 * 24 * 60 * 60
    else seconds
  }

  function BasisPointsFloor(amount: int, bps: int): int {
    if amount <= 0 || bps <= 0 then 0 else amount * bps / BASIS_POINTS
  }

  /** The paid part of the balance that is left after a spend already taken from quota. */
  function RemainingPaid(u: User): int {
    if u.paidQuota <= 0 then u.paidQuota
    else Clamp(if u.quota < u.paidQuota then u.quota else u.paidQuota, 0, u.paidQuota)
  }

  function EligibleSpend(u: User, spend: int): int {
    Clamp(u.paidQuota - RemainingPaid(u), 0, spend)
  }

  /** How much the referrer of u earns for this spend; 0 where no reward is due. */
  function RewardAmount(u: User, userId: nat, spend: int, bps: int, windowSeconds: int, at: int): int {
    if spend <= 0 || u.paidQuota <= 0 || EligibleSpend(u, spend) <= 0 then 0
    else if u.referredBy.None? || u.referredBy.value == userId || u.referredAt.None? then 0
    else if at > u.referredAt.value + RewardWindow(windowSeconds) * 1_000_000 then 0
    else BasisPointsFloor(EligibleSpend(u, spend), RewardBps(bps))
  }

  /** A reward is due to somebody else. */
  lemma PayeeNamed(u: User, userId: nat, spend: int, bps: int, windowSeconds: int, at: int)
    requires RewardAmount(u, userId, spend, bps, windowSeconds, at) > 0
    ensures u.referredBy.Some? && u.referredBy.value != userId
  {
  }

  /** ApplyReferralPaidSpendRewardTx: use up the paid part, then pay the referrer. */
  function SpendReward(db: DB, userId: nat, spend: int, bps: int, windowSeconds: int,
                       at: int, link: Link): Outcome
  {
    if spend <= 0 then Commit(db)
    else if userId >= |db.users| then Abort(UserMissing)
    else
      var u := db.users[userId];
      var db1 := db.(users := db.users[userId := u.(paidQuota := RemainingPaid(u))]);
      var reward := RewardAmount(u, userId, spend, bps, windowSeconds, at);
      if reward <= 0 then Commit(db1)
      else
        var referrer := u.referredBy.value;
        if referrer >= |db1.users| || !db1.users[referrer].ordinary || !db1.users[referrer].enabled then
          Commit(db1)
        else
          Post(db1, referrer, reward, BonusCredit, link, at)
  }

  function FromTemplate(userId: nat, template: CouponTemplate, expiresAt: Option<int>): Coupon {
    Coupon(userId, Available, template.fixedPrice, template.value, template.packages, expiresAt, None, None, 0)
  }

  /** A configured bonus; 0 switches it off. */
  function Bonus(db: DB, userId: nat, amount: nat, link: Link, at: int): Outcome {
    if amount > 0 then Post(db, userId, amount, BonusCredit, link, at) else Commit(db)
  }

  /** createUserWithSignupBonus: the user row already holds the bonus when it is inserted. */
  function CreateUser(db: DB, ordinary: bool, signupBonus: nat, template: Option<CouponTemplate>,
                      expiresAt: Option<int>, at: int): Outcome
  {
    var id := |db.users|;
    var db1 := db.(users := db.users + [User(0, 0, None, None, ordinary, true)]);
    var db2 :- Bonus(db1, id, signupBonus, UserLink(id), at);
    if template.Some? && template.value.enabled then
      Commit(db2.(coupons := db2.coupons + [FromTemplate(id, template.value, expiresAt)]))
    else Commit(db2)
  }

  function Relate(u: User, referrer: nat, at: int): User {
    if u.referredBy == None then u.(referredBy := Some(referrer), referredAt := Some(at)) else u
  }

  /** applyReferralBonuses: relation, referrer bonus and referee bonus in one transaction. */
  function ReferralBonuses(db: DB, newUser: nat, referrer: nat, referrerBonus: nat, refereeBonus: nat,
                           at: int): Outcome
  {
    if newUser >= |db.users| || referrer >= |db.users| || newUser == referrer then Abort(NotEligible)
    else
      var db1 := db.(users := db.users[newUser := Relate(db.users[newUser], referrer, at)]);
      var db2 :- Bonus(db1, referrer, referrerBonus, UserLink(newUser), at);
      Bonus(db2, newUser, refereeBonus, UserLink(referrer), at)
  }
}
