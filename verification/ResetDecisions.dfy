/** What a usage reset requested with lists of ids and statuses clears and writes, in terms of the rows
    alone. */
module ResetDecisions {
  import opened Model
  import opened Ledger
  import opened Ids
  import opened Invariants
  import opened UsageReset
  import opened Runs

  /** The list names this row, or names nothing at all: ids start at 1, and 0 names nothing. */
  ghost predicate Named(ids: seq<nat>, row: nat) {
    row + 1 in ids || forall i :: 0 <= i < |ids| ==> ids[i] == 0
  }

  /** The subscription has a requested status or, where none is requested, is active and not over, and
      both lists name it. */
  ghost predicate Requested(s: Sub, packageIds: seq<nat>, userIds: seq<nat>, statuses: seq<SubStatus>, now: int) {
    && (if statuses == [] then s.status == Active && now < s.endAt else s.status in statuses)
    && Named(packageIds, s.packageId) && Named(userIds, s.userId)
  }

  lemma ScopeExactly(s: Sub, packageIds: seq<nat>, userIds: seq<nat>, statuses: seq<SubStatus>, now: int)
    ensures InScope(ScopeOf(Normalized(packageIds), Normalized(userIds), statuses), s, now)
            <==> Requested(s, packageIds, userIds, statuses, now)
  {
    hide Normalized;
    NormalizedExactly(packageIds);
    NormalizedExactly(userIds);
    NothingNamed(packageIds);
    NothingNamed(userIds);
    assert s.packageId + 1 in packageIds ==> !(forall i :: 0 <= i < |packageIds| ==> packageIds[i] == 0);
    assert s.userId + 1 in userIds ==> !(forall i :: 0 <= i < |userIds| ==> userIds[i] == 0);
  }

  /** The subscriptions a request matches. */
  ghost function RequestedSubs(subs: seq<Sub>, packageIds: seq<nat>, userIds: seq<nat>, statuses: seq<SubStatus>,
                               now: int): set<nat>
  {
    set i: nat | i < |subs| && Requested(subs[i], packageIds, userIds, statuses, now)
  }

  lemma {:induction false} SizeOfAscending(ids: seq<nat>, ids': set<nat>)
    requires forall j, k :: 0 <= j < k < |ids| ==> ids[j] < ids[k]
    requires forall i: nat :: i in ids <==> i in ids'
    ensures |ids| == |ids'|
  {
    if ids == [] {
      assert ids' == {};
    } else {
      var last := |ids| - 1;
      SizeOfAscending(ids[..last], ids' - {ids[last]});
    }
  }

  lemma MatchedAre(subs: seq<Sub>, packageIds: seq<nat>, userIds: seq<nat>, statuses: seq<SubStatus>, now: int)
    ensures var ids := Matched(subs, ScopeOf(Normalized(packageIds), Normalized(userIds), statuses), now);
            var matched := RequestedSubs(subs, packageIds, userIds, statuses, now);
            && |ids| == |matched| && (forall i: nat :: i in ids <==> i in matched)
            && (forall j, k :: 0 <= j < k < |ids| ==> ids[j] < ids[k])
  {
    hide InScope, Requested, ScopeOf;
    var scope := ScopeOf(Normalized(packageIds), Normalized(userIds), statuses);
    var ids := Matched(subs, scope, now);
    MatchedExactly(subs, scope, now);
    assert forall j, k :: 0 <= j < k < |ids| ==> ids[j] < ids[k];
    forall i: nat | i < |subs|
      ensures InScope(scope, subs[i], now) <==> Requested(subs[i], packageIds, userIds, statuses, now)
    {
      ScopeExactly(subs[i], packageIds, userIds, statuses, now);
    }
    SizeOfAscending(ids, RequestedSubs(subs, packageIds, userIds, statuses, now));
  }

  lemma {:induction false} ResetEntry(db: DB, ids: seq<nat>, written: seq<Entry>, at: int, k: nat)
    requires k < |ids| && (forall i :: 0 <= i < |ids| ==> ids[i] < |db.subs|)
    requires WriteResets(db, ids, written, at).Commit?
    ensures var db' := WriteResets(db, ids, written, at).db;
            && |db'.entries| == |db.entries| + |ids| && db.entries <= db'.entries
            && db'.entries[|db.entries| + k]
               == Entry(db.subs[ids[k]].userId, AdminAdjust, Settled, 0, QuotaOf(db.users, db.subs[ids[k]].userId),
                        if Count(written, AdminAdjust, ResetLink(ids[k])) > 0 then NoLink else ResetLink(ids[k]), 0,
                        at + k)
    decreases |ids|
  {
    hide Count;
    var owner := db.subs[ids[0]].userId;
    var link := if Count(written, AdminAdjust, ResetLink(ids[0])) > 0 then NoLink else ResetLink(ids[0]);
    var e := Entry(owner, AdminAdjust, Settled, 0, QuotaOf(db.users, owner), link, 0, at);
    var db1 := db.(entries := db.entries + [e]);
    if |ids| > 1 {
      ResetEntry(db1, ids[1..], written, at + 1, if k > 0 then k - 1 else 0);
      if k > 0 {
        assert ids[1..][k - 1] == ids[k] && |db1.entries| + (k - 1) == |db.entries| + k;
      }
    }
  }

  /** The audit entry of one matched subscription: nothing moves, the owner's quota is recorded, and the
      entry is linked unless an earlier reset's entry already is. */
  ghost predicate Audited(db: DB, e: Entry, sub: nat, at: int)
    requires sub < |db.subs|
  {
    && db.subs[sub].userId < |db.users|
    && e == Entry(db.subs[sub].userId, AdminAdjust, Settled, 0, db.users[db.subs[sub].userId].quota, e.link, 0, at)
    && e.link == if exists k :: 0 <= k < |db.entries| && db.entries[k].kind == AdminAdjust
                                && db.entries[k].link == ResetLink(sub)
                 then NoLink else ResetLink(sub)
  }

  lemma AuditedEntry(db: DB, sub: nat, at: int)
    requires Inv(db) && sub < |db.subs|
    ensures Audited(db, Entry(db.subs[sub].userId, AdminAdjust, Settled, 0, QuotaOf(db.users, db.subs[sub].userId),
                              if Count(db.entries, AdminAdjust, ResetLink(sub)) > 0 then NoLink else ResetLink(sub),
                              0, at), sub, at)
  {
    hide InvUpTo;
    SubOwner(db, sub);
    if Count(db.entries, AdminAdjust, ResetLink(sub)) > 0 {
      CountedExists(db.entries, AdminAdjust, ResetLink(sub));
    }
    forall k | 0 <= k < |db.entries| && db.entries[k].kind == AdminAdjust && db.entries[k].link == ResetLink(sub)
      ensures Count(db.entries, AdminAdjust, ResetLink(sub)) > 0
    {
      PresentCounts(db.entries, k);
    }
  }

  /** The counter of this user and plan belongs to a requested subscription whose snapshot has the plan. */
  ghost predicate Belongs(subs: seq<Sub>, matched: set<nat>, key: UsageKey) {
    exists i: nat :: i in matched && i < |subs| && subs[i].userId == key.userId && key.planId in subs[i].planIds
  }

  lemma ClearedRows(usage: map<UsageKey, Usage>, subs: seq<Sub>, ids: seq<nat>, matched: set<nat>, now: int)
    requires forall i: nat :: i in ids <==> i in matched
    ensures ClearUsage(usage, subs, ids, now).Keys == usage.Keys
    ensures forall key :: key in usage ==>
              ClearUsage(usage, subs, ids, now)[key]
              == if Belongs(subs, matched, key) then usage[key].(consumed := 0.0, consumedMicro := 0, requests := 0,
                                                                updatedAt := now)
                 else usage[key]
  {
    forall key | key in usage ensures Hits(subs, ids, key) <==> Belongs(subs, matched, key) {
      if Belongs(subs, matched, key) {
        var i: nat :| i in matched && i < |subs| && subs[i].userId == key.userId && key.planId in subs[i].planIds;
        var k :| 0 <= k < |ids| && ids[k] == i;
      }
      if Hits(subs, ids, key) {
        var k :| 0 <= k < |ids| && ids[k] < |subs| && subs[ids[k]].userId == key.userId
                 && key.planId in subs[ids[k]].planIds;
        assert ids[k] in ids;
      }
    }
  }

  /** Over every run: a reset commits exactly while it matches at most 10000 subscriptions. Then the
      counters of the plans in the matched snapshots, of the matched users alone, are zero and stamped
      now, with their windows as before; every other counter is untouched; and each matched
      subscription, in ascending order, has one audit entry. */
  lemma ResetExactly(linkIndex: bool, steps: seq<Step>, packageIds: seq<nat>, userIds: seq<nat>,
                     statuses: seq<SubStatus>, now: int)
    ensures var db := Run(linkIndex, steps).db;
            var matched := RequestedSubs(db.subs, packageIds, userIds, statuses, now);
            match ResetUsage(db, ScopeOf(Normalized(packageIds), Normalized(userIds), statuses), now)
            case Abort(why) => |matched| > 10_000 && why == ResetScopeTooLarge
            case Commit(db') =>
              && |matched| <= 10_000 && db' == db.(usage := db'.usage, entries := db'.entries)
              && db'.usage.Keys == db.usage.Keys
              && (forall key :: key in db.usage ==>
                    db'.usage[key] == if Belongs(db.subs, matched, key)
                                      then db.usage[key].(consumed := 0.0, consumedMicro := 0, requests := 0,
                                                          updatedAt := now)
                                      else db.usage[key])
              && |db'.entries| == |db.entries| + |matched| && db.entries <= db'.entries
              && exists ids: seq<nat> ::
                   && |ids| == |matched| && (forall i: nat :: i in ids <==> i in matched)
                   && (forall j, k :: 0 <= j < k < |ids| ==> ids[j] < ids[k])
                   && (forall k :: 0 <= k < |ids| && ids[k] < |db.subs| ==>
                         Audited(db, db'.entries[|db.entries| + k], ids[k], now + k))
  {
    hide InvUpTo, Run, Matched, ScopeOf, Normalized, WriteResets, ClearUsage, RequestedSubs, Audited, ResetEffect;
    var db := Run(linkIndex, steps).db;
    Reachable(linkIndex, steps);
    var scope := ScopeOf(Normalized(packageIds), Normalized(userIds), statuses);
    var ids := Matched(db.subs, scope, now);
    MatchedAre(db.subs, packageIds, userIds, statuses, now);
    ResetKeeps(db, scope, now);
    if |ids| <= 10_000 {
      var db1 := db.(usage := ClearUsage(db.usage, db.subs, ids, now));
      var db' := WriteResets(db1, ids, db.entries, now).db;
      EffectFrame(db, db', scope, now);
      ClearedRows(db.usage, db.subs, ids, RequestedSubs(db.subs, packageIds, userIds, statuses, now), now);
      forall k: nat | k < |ids| ensures Audited(db, db'.entries[|db.entries| + k], ids[k], now + k) {
        ResetEntry(db1, ids, db.entries, now, k);
        AuditedEntry(db, ids[k], now + k);
      }
      UsageFrame(db, db1, db', ids, now);
    }
  }

  lemma EffectFrame(db: DB, db': DB, scope: ResetScope, now: int)
    requires ResetEffect(db, db', scope, now)
    ensures db' == db.(usage := db'.usage, entries := db'.entries)
    ensures |db'.entries| == |db.entries| + |Matched(db.subs, scope, now)| && db.entries <= db'.entries
  {
    hide UsageCleared, Matched;
  }

  lemma {:induction false} ResetsLeaveUsage(db: DB, ids: seq<nat>, written: seq<Entry>, at: int)
    requires forall k :: 0 <= k < |ids| ==> ids[k] < |db.subs|
    ensures var out := WriteResets(db, ids, written, at); out.Commit? ==> out.db.usage == db.usage
    decreases |ids|
  {
    if ids != [] {
      var link := if Count(written, AdminAdjust, ResetLink(ids[0])) > 0 then NoLink else ResetLink(ids[0]);
      var owner := db.subs[ids[0]].userId;
      var e := Entry(owner, AdminAdjust, Settled, 0, QuotaOf(db.users, owner), link, 0, at);
      if WriteEntry(db, e).Commit? {
        ResetsLeaveUsage(WriteEntry(db, e).db, ids[1..], written, at + 1);
      }
    }
  }

  lemma UsageFrame(db: DB, db1: DB, db': DB, ids: seq<nat>, now: int)
    requires forall k :: 0 <= k < |ids| ==> ids[k] < |db1.subs|
    requires WriteResets(db1, ids, db.entries, now) == Commit(db')
    ensures db'.usage == db1.usage
  {
    ResetsLeaveUsage(db1, ids, db.entries, now);
  }
}
