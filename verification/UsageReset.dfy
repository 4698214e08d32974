/** The bulk usage reset: which counters it clears, what it leaves alone, and the audit
    entries it writes. */
module UsageReset {
  import opened Model
  import opened Ledger
  import opened Ids
  import opened Invariants
  import opened TopupProofs

  const RESET_SCOPE_MAX := 10_000

  /** Empty lists do not filter. */
  datatype ResetScope = ResetScope(
    packageIds: seq<nat>,
    userIds: seq<nat>,
    statuses: seq<SubStatus>,
    unexpiredOnly: bool)

  /** No requested status means the unexpired active subscriptions. */
  function ScopeOf(packageIds: seq<nat>, userIds: seq<nat>, requested: seq<SubStatus>): ResetScope {
    if requested == [] then ResetScope(packageIds, userIds, [Active], true)
    else ResetScope(packageIds, userIds, requested, false)
  }

  predicate InScope(scope: ResetScope, s: Sub, now: int) {
    && s.status in scope.statuses
    && (scope.unexpiredOnly ==> s.endAt > now)
    && (scope.packageIds != [] ==> s.packageId in scope.packageIds)
    && (scope.userIds != [] ==> s.userId in scope.userIds)
  }

  /** The matched subscriptions in ascending order. */
  function Matched(subs: seq<Sub>, scope: ResetScope, now: int): (ids: seq<nat>)
    ensures forall k :: 0 <= k < |ids| ==> ids[k] < |subs|
  {
    if subs == [] then []
    else
      var last := |subs| - 1;
      Matched(subs[..last], scope, now) + (if InScope(scope, subs[last], now) then [last] else [])
  }

  /** Some listed subscription of this counter's user has this counter's plan. */
  predicate Hits(subs: seq<Sub>, ids: seq<nat>, key: UsageKey) {
    exists k :: 0 <= k < |ids| && ids[k] < |subs| && subs[ids[k]].userId == key.userId
                && key.planId in subs[ids[k]].planIds
  }

  function Zeroed(u: Usage, now: int): Usage {
    u.(consumed := 0.0, consumedMicro := 0, requests := 0, updatedAt := now)
  }

  function ClearUsage(usage: map<UsageKey, Usage>, subs: seq<Sub>, ids: seq<nat>, now: int): map<UsageKey, Usage> {
    map key | key in usage :: if Hits(subs, ids, key) then Zeroed(usage[key], now) else usage[key]
  }

  function QuotaOf(users: seq<User>, userId: nat): int {
    if userId < |users| then users[userId].quota else 0
  }

  /** One zero entry per listed subscription; written says which subscriptions already carry
      a linked reset entry, whose new entry then goes unlinked. */
  function WriteResets(db: DB, ids: seq<nat>, written: seq<Entry>, at: int): Outcome
    requires forall k :: 0 <= k < |ids| ==> ids[k] < |db.subs|
    decreases |ids|
  {
    if ids == [] then Commit(db)
    else
      var id := ids[0];
      var link := if Count(written, AdminAdjust, ResetLink(id)) > 0 then NoLink else ResetLink(id);
      var owner := db.subs[id].userId;
      var db1 :- WriteEntry(db, Entry(owner, AdminAdjust, Settled, 0, QuotaOf(db.users, owner), link, 0, at));
      WriteResets(db1, ids[1..], written, at + 1)
  }

  function ResetUsage(db: DB, scope: ResetScope, now: int): Outcome {
    var ids := Matched(db.subs, scope, now);
    if |ids| > RESET_SCOPE_MAX then Abort(ResetScopeTooLarge)
    else WriteResets(db.(usage := ClearUsage(db.usage, db.subs, ids, now)), ids, db.entries, now)
  }

  // --- Proofs ---------------------------------------------------------------------------------

  /** Exactly the subscriptions in scope are matched, each once, in ascending order. */
  lemma {:induction false} MatchedExactly(subs: seq<Sub>, scope: ResetScope, now: int)
    ensures var ids := Matched(subs, scope, now);
            && (forall i: nat :: i in ids <==> i < |subs| && InScope(scope, subs[i], now))
            && (forall j, k :: 0 <= j < k < |ids| ==> ids[j] < ids[k])
  {
    if subs != [] {
      var last := |subs| - 1;
      MatchedExactly(subs[..last], scope, now);
    }
  }

  /** What WriteResets may still link: no subscription from here on has a linked entry unless
      it had one when the reset began. */
  ghost predicate ResetsReady(db: DB, ids: seq<nat>, written: seq<Entry>) {
    && (forall k :: 0 <= k < |ids| ==> ids[k] < |db.subs|)
    && (forall j, k :: 0 <= j < k < |ids| ==> ids[j] < ids[k])
    && (forall k :: 0 <= k < |ids| ==>
          Count(db.entries, AdminAdjust, ResetLink(ids[k])) == Count(written, AdminAdjust, ResetLink(ids[k])))
  }

  lemma ResetStep(db: DB, ids: seq<nat>, written: seq<Entry>, at: int, e: Entry)
    requires ResetsReady(db, ids, written) && ids != []
    requires e.kind == AdminAdjust
    requires e.link == if Count(written, AdminAdjust, ResetLink(ids[0])) > 0 then NoLink else ResetLink(ids[0])
    ensures !LinkTaken(db, AdminAdjust, e.link)
    ensures ResetsReady(db.(entries := db.entries + [e]), ids[1..], written)
    ensures e.link.ResetLink? ==> Count(db.entries, AdminAdjust, e.link) == 0
  {
    Appended(db.entries, e);
    forall k | 0 <= k < |ids[1..]|
      ensures ids[0] < ids[1..][k]
      ensures Count(db.entries + [e], AdminAdjust, ResetLink(ids[1..][k]))
              == Count(written, AdminAdjust, ResetLink(ids[1..][k]))
    {
      assert ids[1..][k] == ids[k + 1];
    }
  }

  /** The audit entries: nothing but the ledger changes, one zero entry per subscription. */
  ghost predicate ResetWritten(db: DB, db': DB, ids: seq<nat>) {
    && db' == db.(entries := db'.entries)
    && |db'.entries| == |db.entries| + |ids|
    && db'.entries[..|db.entries|] == db.entries
    && (forall k :: 0 <= k < |ids| && ids[k] < |db.subs| ==>
          var e := db'.entries[|db.entries| + k];
          e.userId == db.subs[ids[k]].userId && e.kind == AdminAdjust && e.amount == 0
          && e.balanceAfter == QuotaOf(db.users, e.userId) && (e.link == ResetLink(ids[k]) || e.link == NoLink))
  }

  lemma ResetOnce(db: DB, db1: DB, db2: DB, ids: seq<nat>)
    requires ids != [] && ids[0] < |db.subs|
    requires db1 == db.(entries := db1.entries) && |db1.entries| == |db.entries| + 1
    requires db1.entries[..|db.entries|] == db.entries
    requires var e := db1.entries[|db.entries|];
             e.userId == db.subs[ids[0]].userId && e.kind == AdminAdjust && e.amount == 0
             && e.balanceAfter == QuotaOf(db.users, e.userId) && (e.link == ResetLink(ids[0]) || e.link == NoLink)
    requires ResetWritten(db1, db2, ids[1..])
    ensures ResetWritten(db, db2, ids)
  {
    assert db2.entries[..|db.entries|] == db2.entries[..|db1.entries|][..|db.entries|];
    assert db2.entries[|db.entries|] == db2.entries[..|db1.entries|][|db.entries|];
    forall k | 0 <= k < |ids| && ids[k] < |db.subs|
      ensures var e := db2.entries[|db.entries| + k];
          e.userId == db.subs[ids[k]].userId && e.kind == AdminAdjust && e.amount == 0
          && e.balanceAfter == QuotaOf(db.users, e.userId) && (e.link == ResetLink(ids[k]) || e.link == NoLink)
    {
      if k > 0 {
        assert ids[k] == ids[1..][k - 1];
        assert db2.entries[|db1.entries| + (k - 1)] == db2.entries[|db.entries| + k];
      }
    }
  }

  lemma {:induction false} WriteResetsKeep(db: DB, ids: seq<nat>, written: seq<Entry>, at: int)
    requires Inv(db) && ResetsReady(db, ids, written)
    ensures var out := WriteResets(db, ids, written, at);
            out.Commit? && Inv(out.db) && ResetWritten(db, out.db, ids)
    decreases |ids|
  {
    hide InvUpTo, ResetsReady, ResetWritten;
    if ids == [] {
      NothingWritten(db);
    } else {
      var id := ids[0];
      IdsInRange(db, ids, written);
      SubOwner(db, id);
      var link := if Count(written, AdminAdjust, ResetLink(id)) > 0 then NoLink else ResetLink(id);
      var owner := db.subs[id].userId;
      var e := Entry(owner, AdminAdjust, Settled, 0, QuotaOf(db.users, owner), link, 0, at);
      ResetStep(db, ids, written, at, e);
      NeutralWrite(db, |db.subs|, e);
      var db1 := db.(entries := db.entries + [e]);
      WriteResetsKeep(db1, ids[1..], written, at + 1);
      ResetOnce(db, db1, WriteResets(db1, ids[1..], written, at + 1).db, ids);
    }
  }

  lemma NothingWritten(db: DB)
    ensures ResetWritten(db, db, [])
  {
  }

  lemma IdsInRange(db: DB, ids: seq<nat>, written: seq<Entry>)
    requires ResetsReady(db, ids, written)
    ensures forall k :: 0 <= k < |ids| ==> ids[k] < |db.subs|
  {
  }

  lemma SubOwner(db: DB, id: nat)
    requires Inv(db) && id < |db.subs|
    ensures db.subs[id].userId < |db.users|
  {
  }

  lemma UsageKeeps(db: DB, usage: map<UsageKey, Usage>)
    requires Inv(db)
    ensures Inv(db.(usage := usage))
  {
    hide Balanced, OrdersOk, RefundsOk, PaidOk, SubsUpTo, TotalsUpTo, StacksOk, CouponsOk, ReconsOk, OverdraftOk,
         LinksOk, AmountsOk, IndexOk;
    LinksFrame(db, db.(usage := usage));
    IndexFrame(db, db.(usage := usage));
  }

  /** A counter is cleared exactly when its plan is in the snapshot
      of a matched subscription of its user; every other counter and every window boundary are
      left alone. */
  ghost predicate UsageCleared(usage: map<UsageKey, Usage>, usage': map<UsageKey, Usage>, subs: seq<Sub>,
                               scope: ResetScope, now: int)
  {
    && usage'.Keys == usage.Keys
    && (forall key :: key in usage ==>
          && usage'[key].windowStart == usage[key].windowStart
          && usage'[key].windowEnd == usage[key].windowEnd
          && (if exists i: nat :: i < |subs| && InScope(scope, subs[i], now)
                                  && subs[i].userId == key.userId && key.planId in subs[i].planIds
              then usage'[key].consumed == 0.0 && usage'[key].consumedMicro == 0 && usage'[key].requests == 0
              else usage'[key] == usage[key]))
  }

  /** Everything a reset changes. */
  ghost predicate ResetEffect(db: DB, db': DB, scope: ResetScope, now: int) {
    && db' == db.(usage := db'.usage, entries := db'.entries)
    && UsageCleared(db.usage, db'.usage, db.subs, scope, now)
    && ResetWritten(db.(usage := db'.usage), db', Matched(db.subs, scope, now))
  }

  lemma HitsMeansMatched(subs: seq<Sub>, scope: ResetScope, now: int, key: UsageKey)
    ensures Hits(subs, Matched(subs, scope, now), key) <==>
            exists i: nat :: i < |subs| && InScope(scope, subs[i], now)
                             && subs[i].userId == key.userId && key.planId in subs[i].planIds
  {
    var ids := Matched(subs, scope, now);
    MatchedExactly(subs, scope, now);
    if Hits(subs, ids, key) {
      var k :| 0 <= k < |ids| && ids[k] < |subs| && subs[ids[k]].userId == key.userId
               && key.planId in subs[ids[k]].planIds;
      assert ids[k] in ids;
    }
    if i: nat :| i < |subs| && InScope(scope, subs[i], now) && subs[i].userId == key.userId
                 && key.planId in subs[i].planIds {
      assert i in ids;
      var k :| 0 <= k < |ids| && ids[k] == i;
    }
  }

  /** A reset commits exactly while at most 10000 subscriptions match: the ledger index never
      stops it, because a subscription that already has a linked reset entry gets an unlinked
      one. It keeps the invariant, so over any run each subscription has at most one linked
      reset entry. */
  lemma ResetKeeps(db: DB, scope: ResetScope, now: int)
    requires Inv(db)
    ensures ResetUsage(db, scope, now).Commit? <==> |Matched(db.subs, scope, now)| <= RESET_SCOPE_MAX
    ensures var out := ResetUsage(db, scope, now); out.Commit? ==> Inv(out.db) && ResetEffect(db, out.db, scope, now)
  {
    hide InvUpTo, ClearUsage, WriteResets, UsageCleared, ResetWritten;
    var ids := Matched(db.subs, scope, now);
    var db1 := db.(usage := ClearUsage(db.usage, db.subs, ids, now));
    MatchedExactly(db.subs, scope, now);
    UsageKeeps(db, db1.usage);
    WriteResetsKeep(db1, ids, db.entries, now);
    ClearedExactly(db.usage, db.subs, scope, now);
    WrittenOnly(db1, WriteResets(db1, ids, db.entries, now).db, ids);
  }

  lemma WrittenOnly(db: DB, db': DB, ids: seq<nat>)
    requires ResetWritten(db, db', ids)
    ensures db' == db.(entries := db'.entries)
  {
  }

  lemma ClearedExactly(usage: map<UsageKey, Usage>, subs: seq<Sub>, scope: ResetScope, now: int)
    ensures UsageCleared(usage, ClearUsage(usage, subs, Matched(subs, scope, now), now), subs, scope, now)
  {
    hide InScope;
    forall key | key in usage
      ensures Hits(subs, Matched(subs, scope, now), key) <==>
              exists i: nat :: i < |subs| && InScope(scope, subs[i], now)
                               && subs[i].userId == key.userId && key.planId in subs[i].planIds
    {
      HitsMeansMatched(subs, scope, now, key);
    }
  }

  /** A list that holds nothing but 0 filters like no list at all: a reset that names only user 0
      (or package 0) resets everybody's subscriptions in the rest of the scope. A list filters if
      and only if it names some id. */
  lemma ZeroIdsFilterNothing(db: DB, packageIds: seq<nat>, userIds: seq<nat>, statuses: seq<SubStatus>, now: int)
    ensures (forall i :: 0 <= i < |userIds| ==> userIds[i] == 0) ==>
              ResetUsage(db, ScopeOf(Normalized(packageIds), Normalized(userIds), statuses), now)
              == ResetUsage(db, ScopeOf(Normalized(packageIds), [], statuses), now)
    ensures (forall i :: 0 <= i < |packageIds| ==> packageIds[i] == 0) ==>
              ResetUsage(db, ScopeOf(Normalized(packageIds), Normalized(userIds), statuses), now)
              == ResetUsage(db, ScopeOf([], Normalized(userIds), statuses), now)
    ensures (exists i :: 0 <= i < |userIds| && userIds[i] != 0) ==>
              var scope := ScopeOf(Normalized(packageIds), Normalized(userIds), statuses);
              forall id: nat :: id in Matched(db.subs, scope, now) ==>
                id < |db.subs| && db.subs[id].userId + 1 in userIds
    ensures (exists i :: 0 <= i < |packageIds| && packageIds[i] != 0) ==>
              var scope := ScopeOf(Normalized(packageIds), Normalized(userIds), statuses);
              forall id: nat :: id in Matched(db.subs, scope, now) ==>
                id < |db.subs| && db.subs[id].packageId + 1 in packageIds
  {
    hide ResetUsage, Normalized, Matched;
    NothingNamed(packageIds);
    NothingNamed(userIds);
    NormalizedExactly(packageIds);
    NormalizedExactly(userIds);
    MatchedExactly(db.subs, ScopeOf(Normalized(packageIds), Normalized(userIds), statuses), now);
  }
}
