/** The append-only billing ledger: totals over it, the guarded append, and what an
    append changes. */
module Ledger {
  import opened Model

  // --- Reading the ledger ----------------------------------------------------

  /** The signed sum of one user's amounts, in insertion order. */
  function Balance(entries: seq<Entry>, userId: nat): int {
    if entries == [] then 0
    else
      var e := entries[|entries| - 1];
      Balance(entries[..|entries| - 1], userId) + (if e.userId == userId then e.amount else 0)
  }

  /** The signed sum of one user's amounts of one kind. */
  function Total(entries: seq<Entry>, userId: nat, kind: Kind): int {
    if entries == [] then 0
    else
      var e := entries[|entries| - 1];
      Total(entries[..|entries| - 1], userId, kind)
      + (if e.userId == userId && e.kind == kind then e.amount else 0)
  }

  /** What reconciliation adjustments moved for one user; other adjustments do not link to an entry. */
  function ReconciledTotal(entries: seq<Entry>, userId: nat): int {
    if entries == [] then 0
    else
      var e := entries[|entries| - 1];
      ReconciledTotal(entries[..|entries| - 1], userId)
      + (if e.userId == userId && e.kind == AdminAdjust && e.link.EntryLink? then e.amount else 0)
  }

  /** How many entries carry this kind and this link. */
  function Count(entries: seq<Entry>, kind: Kind, link: Link): nat {
    if entries == [] then 0
    else
      var e := entries[|entries| - 1];
      Count(entries[..|entries| - 1], kind, link)
      + (if e.kind == kind && e.link == link then 1 else 0)
  }

  lemma Appended(entries: seq<Entry>, e: Entry)
    ensures forall u: nat :: Balance(entries + [e], u) == Balance(entries, u) + (if e.userId == u then e.amount else 0)
    ensures forall u: nat, k: Kind :: Total(entries + [e], u, k)
                                   == Total(entries, u, k) + (if e.userId == u && e.kind == k then e.amount else 0)
    ensures forall u: nat :: ReconciledTotal(entries + [e], u) == ReconciledTotal(entries, u)
              + (if e.userId == u && e.kind == AdminAdjust && e.link.EntryLink? then e.amount else 0)
    ensures forall k: Kind, l: Link :: Count(entries + [e], k, l)
                                    == Count(entries, k, l) + (if e.kind == k && e.link == l then 1 else 0)
  {
    assert (entries + [e])[..|entries|] == entries;
  }

  /** Something counted is somewhere in the ledger. */
  lemma {:induction false} CountedExists(entries: seq<Entry>, kind: Kind, link: Link)
    requires Count(entries, kind, link) > 0
    ensures exists i :: 0 <= i < |entries| && entries[i].kind == kind && entries[i].link == link
  {
    var last := |entries| - 1;
    if !(entries[last].kind == kind && entries[last].link == link) {
      CountedExists(entries[..last], kind, link);
      var i :| 0 <= i < last && entries[..last][i].kind == kind && entries[..last][i].link == link;
      assert entries[i].kind == kind;
    }
  }

  lemma {:induction false} PresentCounts(entries: seq<Entry>, i: int)
    requires 0 <= i < |entries|
    ensures Count(entries, entries[i].kind, entries[i].link) > 0
  {
    var last := |entries| - 1;
    if i < last {
      PresentCounts(entries[..last], i);
    }
  }

  // --- Writing the ledger ------------------------------------------------------

  predicate ZeroAmountKind(kind: Kind) {
    kind.ApiUsageSub? || kind.ApiUsagePending? || kind.AdminGrantSub? || kind.AdminRevokeGrant?
  }

  /** The partial unique index refuses a second entry with the same link and kind. */
  predicate LinkTaken(db: DB, kind: Kind, link: Link) {
    db.linkIndex && link != NoLink && Count(db.entries, kind, link) > 0
  }

  /** WriteBillingEntry: validate, then append. */
  function WriteEntry(db: DB, e: Entry): Outcome {
    if ZeroAmountKind(e.kind) && e.amount != 0 then Abort(BillingInvalid)
    else if LinkTaken(db, e.kind, e.link) then Abort(BillingLinkDuplicate)
    else Commit(db.(entries := db.entries + [e]))
  }

  function AddQuota(db: DB, userId: nat, amount: int): DB
    requires userId < |db.users|
  {
    db.(users := db.users[userId := db.users[userId].(quota := db.users[userId].quota + amount)])
  }

  /** Move a user's quota and record the movement with the fresh balance. */
  function Post(db: DB, userId: nat, amount: int, kind: Kind, link: Link, at: int): Outcome {
    if userId >= |db.users| then Abort(UserMissing)
    else
      var moved := AddQuota(db, userId, amount);
      WriteEntry(moved, Entry(userId, kind, Settled, amount, moved.users[userId].quota, link, 0, at))
  }

  // --- The running-balance invariant ---------------------------------------------

  /** Every quota is the sum of its user's entries, and every settled entry records the
      running sum up to and including itself; entries that are not settled move nothing. */
  ghost predicate Balanced(users: seq<User>, entries: seq<Entry>) {
    && (forall u: nat :: u < |users| ==> users[u].quota == Balance(entries, u))
    && (forall k :: 0 <= k < |entries| ==> entries[k].userId < |users|)
    && (forall k :: 0 <= k < |entries| && entries[k].state != Settled ==> entries[k].amount == 0)
    && (forall k :: 0 <= k < |entries| && entries[k].state == Settled ==>
          entries[k].balanceAfter == Balance(entries[..k + 1], entries[k].userId))
  }

  /** Rows of users may change in every way but their quota. */
  ghost predicate SameQuotas(users: seq<User>, users': seq<User>) {
    && |users'| == |users|
    && (forall u: nat :: u < |users| ==> users'[u].quota == users[u].quota)
  }

  ghost predicate QuotaMoved(users: seq<User>, users': seq<User>, userId: nat, amount: int) {
    && |users'| == |users| && userId < |users|
    && (forall u: nat :: u < |users| ==> users'[u].quota == users[u].quota + (if u == userId then amount else 0))
  }

  /** One movement of one quota with its entry keeps the ledger balanced. */
  lemma BalancedPost(users: seq<User>, entries: seq<Entry>, users': seq<User>, e: Entry)
    requires Balanced(users, entries) && QuotaMoved(users, users', e.userId, e.amount)
    requires if e.state == Settled then e.balanceAfter == users'[e.userId].quota else e.amount == 0
    ensures Balanced(users', entries + [e])
  {
    Appended(entries, e);
    var after := entries + [e];
    forall k | 0 <= k < |after| && after[k].state == Settled
      ensures after[k].balanceAfter == Balance(after[..k + 1], after[k].userId)
    {
      if k < |entries| {
        assert after[..k + 1] == entries[..k + 1];
      } else {
        assert after[..k + 1] == after;
      }
    }
  }

  lemma BalancedFrame(users: seq<User>, entries: seq<Entry>, users': seq<User>)
    requires Balanced(users, entries) && SameQuotas(users, users')
    ensures Balanced(users', entries)
  {
  }

  /** A new user starts with no entries, so a zero quota. */
  lemma BalancedNewUser(users: seq<User>, entries: seq<Entry>, added: User)
    requires Balanced(users, entries) && added.quota == 0
    ensures Balanced(users + [added], entries)
  {
    NoEntries(entries, |users|);
  }

  lemma {:induction false} NoEntries(entries: seq<Entry>, userId: nat)
    requires forall k :: 0 <= k < |entries| ==> entries[k].userId != userId
    ensures Balance(entries, userId) == 0
    ensures forall k: Kind :: Total(entries, userId, k) == 0
    ensures ReconciledTotal(entries, userId) == 0
  {
    if entries != [] {
      var last := |entries| - 1;
      NoEntries(entries[..last], userId);
    }
  }

  /** The unfiltered settled summary: credits minus debits grouped by kind. */
  lemma {:induction false} BalanceIsSumOfKinds(entries: seq<Entry>, userId: nat)
    ensures Balance(entries, userId) ==
            Total(entries, userId, Topup) + Total(entries, userId, PurchaseSub)
            + Total(entries, userId, BonusCredit) + Total(entries, userId, RefundSub)
            + Total(entries, userId, RefundTopup) + Total(entries, userId, AdminAdjust)
            + Total(entries, userId, AdminGrantSub) + Total(entries, userId, AdminRevokeGrant)
            + Total(entries, userId, ApiConsumeBalance) + Total(entries, userId, ApiUsageSub)
            + Total(entries, userId, ApiUsagePending)
  {
    if entries != [] {
      BalanceIsSumOfKinds(entries[..|entries| - 1], userId);
    }
  }
}
