/** Attributing upstream usage records to API logs: batch insert with per-row fallback, the
    candidate query, and the greedy nearest match. Times are in microseconds. */
module Attribution {
  import opened Options
  import opened RmbCodec

  datatype ApiLog = ApiLog(
    createdAt: int,
    modelName: string,
    requestedModel: string,
    servedModel: string,
    path: string,
    status: int,
    promptTokens: int,
    completionTokens: int,
    reasoningTokens: int,
    cachedTokens: int,
    cacheWriteTokens: int,
    preassigned: bool)      // upstream_usage_record_id is not 0

  datatype MatchStatus = Pending | Ignored | Unmatched | Matched(log: nat)

  datatype Record = Record(
    model: string,
    alias: string,
    endpoint: string,
    apiKeyHash: string,
    timestamp: Option<int>,
    latencyMs: int,
    inputTokens: nat,
    outputTokens: nat,
    reasoningTokens: nat,
    cachedTokens: nat,
    cacheReadTokens: nat,
    cacheCreationTokens: nat,
    totalTokens: nat,
    failed: bool,
    status: int,
    result: MatchStatus)

  /** queriedAt is the clock reading of the candidate query; the later one stored as matched_at
      takes part in nothing. */
  datatype Attribution = Attribution(log: nat, record: nat, queriedAt: int)

  datatype Tables = Tables(logs: seq<ApiLog>, records: seq<Record>, attributions: seq<Attribution>)

  const SECOND: int := 1_000_000
  const QUERY_LIMIT := 50

  // --- The filters -------------------------------------------------------------------------

  /** The distinct non-blank trimmed values, in order. */
  function Compact(values: seq<string>): seq<string> {
    if values == [] then []
    else
      var out := Compact(values[..|values| - 1]);
      var value := Trim(values[|values| - 1]);
      if value == "" || value in out then out else out + [value]
  }

  function Names(r: Record): seq<string> {
    var names := Compact([r.alias, r.model]);
    if names == [] then ["unknown"] else names
  }

  function WordLength(s: string): (n: nat)
    ensures n <= |s| && (s != "" && !IsSpace(s[0]) ==> n > 0)
  {
    if s == "" || IsSpace(s[0]) then 0 else 1 + WordLength(s[1..])
  }

  function SkipSpaces(s: string): (n: nat)
    ensures n <= |s| && (n < |s| ==> !IsSpace(s[n]))
  {
    if s == "" || !IsSpace(s[0]) then 0 else 1 + SkipSpaces(s[1..])
  }

  /** strings.Fields. */
  function Fields(s: string): seq<string>
    decreases |s|
  {
    var start := SkipSpaces(s);
    if start == |s| then []
    else
      var t := s[start..];
      var n := WordLength(t);
      assert t[0] == s[start] && n > 0;
      [t[..n]] + Fields(t[n..])
  }

  function EndpointPath(endpoint: string): string {
    var fields := Fields(Trim(endpoint));
    if |fields| >= 2 then Trim(fields[1])
    else if endpoint != "" && endpoint[0] == '/' then Trim(endpoint)
    else ""
  }

  function WindowStart(r: Record, now: int): int {
    if r.timestamp.None? then now - 600 * SECOND else r.timestamp.value - 20 * SECOND
  }

  function WindowEnd(r: Record, now: int): int {
    if r.timestamp.None? then now + 60 * SECOND else r.timestamp.value + r.latencyMs * 1_000 + 90 * SECOND
  }

  /** What the candidate query asks of a log, apart from not being attributed yet. */
  predicate Passes(log: ApiLog, r: Record, now: int) {
    && !log.preassigned
    && WindowStart(r, now) <= log.createdAt <= WindowEnd(r, now)
    && (log.modelName in Names(r) || log.requestedModel in Names(r) || log.servedModel in Names(r))
    && (EndpointPath(r.endpoint) != "" ==> log.path == EndpointPath(r.endpoint))
    && (if r.failed || r.status >= 400 then log.status >= 400 else 200 <= log.status < 400)
  }

  predicate HasTokenFacts(r: Record) {
    || r.inputTokens > 0 || r.outputTokens > 0 || r.reasoningTokens > 0 || r.cachedTokens > 0
    || r.cacheReadTokens > 0 || r.cacheCreationTokens > 0 || r.totalTokens > 0
  }

  /** Every positive count of the record agrees with the log. */
  predicate TokensExact(log: ApiLog, r: Record) {
    && (r.inputTokens > 0 ==> log.promptTokens == r.inputTokens)
    && (r.outputTokens > 0 ==> log.completionTokens == r.outputTokens)
    && (r.reasoningTokens > 0 ==> log.reasoningTokens == r.reasoningTokens)
    && (var read := if r.cacheReadTokens == 0 then r.cachedTokens else r.cacheReadTokens;
        read > 0 ==> log.cachedTokens == read)
    && (r.cacheCreationTokens > 0 ==> log.cacheWriteTokens == r.cacheCreationTokens)
    && (r.totalTokens > 0 ==>
          || log.promptTokens + log.completionTokens == r.totalTokens
          || log.promptTokens + log.completionTokens + log.reasoningTokens == r.totalTokens)
  }

  function Distance(log: ApiLog, r: Record): (d: int)
    ensures d >= 0
  {
    if r.timestamp.None? then 0
    else
      var target := r.timestamp.value + (if r.latencyMs > 0 then r.latencyMs * 1_000 else 0);
      if log.createdAt < target then target - log.createdAt else log.createdAt - target
  }

  // --- The candidate query -----------------------------------------------------------------

  predicate Attributed(attributions: seq<Attribution>, log: nat) {
    exists i :: 0 <= i < |attributions| && attributions[i].log == log
  }

  predicate Candidate(logs: seq<ApiLog>, attributions: seq<Attribution>, r: Record, now: int, log: nat) {
    log < |logs| && Passes(logs[log], r, now) && !Attributed(attributions, log)
  }

  /** ids with one more, newest first. */
  function InsertNewest(logs: seq<ApiLog>, ids: seq<nat>, id: nat): (out: seq<nat>)
    requires id < |logs| && forall i :: 0 <= i < |ids| ==> ids[i] < |logs|
    ensures forall i :: 0 <= i < |out| ==> out[i] < |logs|
    ensures multiset(out) == multiset(ids) + multiset{id}
  {
    if ids == [] || logs[ids[0]].createdAt <= logs[id].createdAt then
      assert [id] + ids == [id] + ids;
      [id] + ids
    else
      assert ids == [ids[0]] + ids[1..];
      [ids[0]] + InsertNewest(logs, ids[1..], id)
  }

  /** Every candidate among the first n logs, newest first. */
  function AllCandidates(logs: seq<ApiLog>, attributions: seq<Attribution>, r: Record, now: int, n: nat):
    (ids: seq<nat>)
    requires n <= |logs|
    ensures forall i :: 0 <= i < |ids| ==> ids[i] < |logs|
  {
    if n == 0 then []
    else
      var ids := AllCandidates(logs, attributions, r, now, n - 1);
      if Candidate(logs, attributions, r, now, n - 1) then InsertNewest(logs, ids, n - 1) else ids
  }

  /** ORDER BY created_at DESC LIMIT 50. */
  function Query(logs: seq<ApiLog>, attributions: seq<Attribution>, r: Record, now: int): (ids: seq<nat>)
    ensures forall i :: 0 <= i < |ids| ==> ids[i] < |logs|
  {
    var all := AllCandidates(logs, attributions, r, now, |logs|);
    if |all| > QUERY_LIMIT then all[..QUERY_LIMIT] else all
  }

  /** The unlimited query finds exactly the candidates, each once. */
  lemma {:induction false} AllCandidatesExactly(logs: seq<ApiLog>, attributions: seq<Attribution>, r: Record, now: int,
                                                n: nat, id: nat)
    requires n <= |logs|
    ensures multiset(AllCandidates(logs, attributions, r, now, n))[id]
            == if id < n && Candidate(logs, attributions, r, now, id) then 1 else 0
  {
    hide Candidate, InsertNewest;
    if n > 0 {
      AllCandidatesExactly(logs, attributions, r, now, n - 1, id);
    }
  }

  predicate NewestFirst(logs: seq<ApiLog>, ids: seq<nat>)
    requires forall i :: 0 <= i < |ids| ==> ids[i] < |logs|
  {
    forall i, j :: 0 <= i < j < |ids| ==> logs[ids[i]].createdAt >= logs[ids[j]].createdAt
  }

  lemma {:induction false} InsertKeepsOrder(logs: seq<ApiLog>, ids: seq<nat>, id: nat)
    requires id < |logs| && (forall i :: 0 <= i < |ids| ==> ids[i] < |logs|) && NewestFirst(logs, ids)
    ensures NewestFirst(logs, InsertNewest(logs, ids, id))
  {
    if ids != [] && logs[ids[0]].createdAt > logs[id].createdAt {
      InsertKeepsOrder(logs, ids[1..], id);
      InsertedBelow(logs, ids[1..], id, logs[ids[0]].createdAt);
    }
  }

  lemma InsertedBelow(logs: seq<ApiLog>, ids: seq<nat>, id: nat, limit: int)
    requires id < |logs| && logs[id].createdAt <= limit
    requires forall i :: 0 <= i < |ids| ==> ids[i] < |logs| && logs[ids[i]].createdAt <= limit
    ensures forall j :: 0 <= j < |InsertNewest(logs, ids, id)| ==>
              logs[InsertNewest(logs, ids, id)[j]].createdAt <= limit
  {
    var out := InsertNewest(logs, ids, id);
    hide InsertNewest;
    forall j | 0 <= j < |out| ensures logs[out[j]].createdAt <= limit {
      assert out[j] in multiset(out);
      assert out[j] == id || out[j] in ids;
    }
  }

  /** One more log is considered. */
  lemma CandidatesStep(logs: seq<ApiLog>, attributions: seq<Attribution>, r: Record, now: int, n: nat)
    requires n < |logs|
    ensures var ids := AllCandidates(logs, attributions, r, now, n);
            AllCandidates(logs, attributions, r, now, n + 1) == ids
            || AllCandidates(logs, attributions, r, now, n + 1) == InsertNewest(logs, ids, n)
  {
    hide Candidate, InsertNewest;
  }

  lemma NoCandidates(logs: seq<ApiLog>, attributions: seq<Attribution>, r: Record, now: int)
    ensures NewestFirst(logs, AllCandidates(logs, attributions, r, now, 0))
  {
  }

  lemma {:induction false} AllNewestFirst(logs: seq<ApiLog>, attributions: seq<Attribution>, r: Record, now: int,
                                          n: nat)
    requires n <= |logs|
    ensures NewestFirst(logs, AllCandidates(logs, attributions, r, now, n))
  {
    hide AllCandidates, InsertNewest, NewestFirst;
    if n == 0 {
      NoCandidates(logs, attributions, r, now);
    } else {
      AllNewestFirst(logs, attributions, r, now, n - 1);
      InsertKeepsOrder(logs, AllCandidates(logs, attributions, r, now, n - 1), n - 1);
      CandidatesStep(logs, attributions, r, now, n - 1);
    }
  }

  /** The query returns candidates only, newest first, and leaves one out only when fifty at
      least as new ones are returned. */
  lemma QueryExactly(logs: seq<ApiLog>, attributions: seq<Attribution>, r: Record, now: int, id: nat)
    ensures var ids := Query(logs, attributions, r, now);
            && |ids| <= QUERY_LIMIT && NewestFirst(logs, ids)
            && (id in ids ==> Candidate(logs, attributions, r, now, id))
            && (Candidate(logs, attributions, r, now, id) && id !in ids ==>
                  |ids| == QUERY_LIMIT && forall c :: c in ids ==> logs[c].createdAt >= logs[id].createdAt)
  {
    var all := AllCandidates(logs, attributions, r, now, |logs|);
    var ids := Query(logs, attributions, r, now);
    hide Candidate, AllCandidates;
    AllCandidatesExactly(logs, attributions, r, now, |logs|, id);
    AllNewestFirst(logs, attributions, r, now, |logs|);
    assert id in all <==> id in multiset(all);
    CandidateInRange(logs, attributions, r, now, id);
    if id in ids {
      var i :| 0 <= i < |ids| && ids[i] == id;
      assert all[i] == id;
    }
    if Candidate(logs, attributions, r, now, id) && id !in ids {
      var j :| 0 <= j < |all| && all[j] == id;
      assert ids == all[..|ids|];
      assert j >= |ids|;
    }
  }

  lemma CandidateMeans(logs: seq<ApiLog>, attributions: seq<Attribution>, r: Record, now: int, id: nat)
    requires Candidate(logs, attributions, r, now, id)
    ensures Passes(logs[id], r, now) && !Attributed(attributions, id)
  {
  }

  lemma CandidateInRange(logs: seq<ApiLog>, attributions: seq<Attribution>, r: Record, now: int, id: nat)
    ensures Candidate(logs, attributions, r, now, id) ==> id < |logs|
  {
  }

  /** No candidate is missed exactly while at most fifty logs pass the filters: beyond that the
      choice is made among the fifty newest only. */
  lemma QueryComplete(logs: seq<ApiLog>, attributions: seq<Attribution>, r: Record, now: int)
    ensures (forall id: nat :: Candidate(logs, attributions, r, now, id) ==> id in Query(logs, attributions, r, now))
            <==> |AllCandidates(logs, attributions, r, now, |logs|)| <= QUERY_LIMIT
  {
    hide Candidate, AllCandidates;
    var all := AllCandidates(logs, attributions, r, now, |logs|);
    if |all| <= QUERY_LIMIT {
      forall id: nat | Candidate(logs, attributions, r, now, id) ensures id in Query(logs, attributions, r, now) {
        QueryExactly(logs, attributions, r, now, id);
        CandidateInRange(logs, attributions, r, now, id);
        AllCandidatesExactly(logs, attributions, r, now, |logs|, id);
        assert id in multiset(all);
      }
    } else {
      var missed := all[QUERY_LIMIT];
      AllCandidatesExactly(logs, attributions, r, now, |logs|, missed);
      assert all == all[..QUERY_LIMIT] + all[QUERY_LIMIT..];
      assert missed in all[QUERY_LIMIT..];
      assert multiset(all)[missed] == multiset(all[..QUERY_LIMIT])[missed] + multiset(all[QUERY_LIMIT..])[missed];
      assert missed in multiset(all);
      assert missed !in multiset(all[..QUERY_LIMIT]);
      assert missed !in Query(logs, attributions, r, now);
    }
  }

  // --- The choice ------------------------------------------------------------------------------

  /** The record's log: with token facts the nearest exact candidate, the first one on ties;
      without them the only candidate. */
  ghost predicate Chosen(logs: seq<ApiLog>, candidates: seq<nat>, r: Record, k: nat)
    requires forall i :: 0 <= i < |candidates| ==> candidates[i] < |logs|
  {
    && k < |candidates|
    && if HasTokenFacts(r) then
         && TokensExact(logs[candidates[k]], r)
         && (forall i :: 0 <= i < |candidates| && TokensExact(logs[candidates[i]], r) ==>
               Distance(logs[candidates[k]], r) <= Distance(logs[candidates[i]], r))
         && (forall i :: 0 <= i < k && TokensExact(logs[candidates[i]], r) ==>
               Distance(logs[candidates[k]], r) < Distance(logs[candidates[i]], r))
       else |candidates| == 1
  }

  lemma ChosenUnique(logs: seq<ApiLog>, candidates: seq<nat>, r: Record, k: nat, k': nat)
    requires forall i :: 0 <= i < |candidates| ==> candidates[i] < |logs|
    requires Chosen(logs, candidates, r, k) && Chosen(logs, candidates, r, k')
    ensures k == k'
  {
  }

  /** The log the choice falls on. */
  ghost function Picked(logs: seq<ApiLog>, candidates: seq<nat>, r: Record): Option<nat>
    requires forall i :: 0 <= i < |candidates| ==> candidates[i] < |logs|
  {
    if exists k: nat :: Chosen(logs, candidates, r, k) then
      var k: nat :| Chosen(logs, candidates, r, k);
      Some(candidates[k])
    else None
  }

  lemma PickedIs(logs: seq<ApiLog>, candidates: seq<nat>, r: Record, k: nat)
    requires forall i :: 0 <= i < |candidates| ==> candidates[i] < |logs|
    requires Chosen(logs, candidates, r, k)
    ensures Picked(logs, candidates, r) == Some(candidates[k])
  {
    var k': nat :| Chosen(logs, candidates, r, k') && Picked(logs, candidates, r) == Some(candidates[k']);
    ChosenUnique(logs, candidates, r, k, k');
  }

  /** While at most fifty logs pass the filters, the chosen log is nearest among all of them. */
  lemma NearestOverall(logs: seq<ApiLog>, attributions: seq<Attribution>, r: Record, now: int, k: nat, id: nat)
    requires |AllCandidates(logs, attributions, r, now, |logs|)| <= QUERY_LIMIT
    requires HasTokenFacts(r) && Chosen(logs, Query(logs, attributions, r, now), r, k)
    requires Candidate(logs, attributions, r, now, id) && TokensExact(logs[id], r)
    ensures Distance(logs[Query(logs, attributions, r, now)[k]], r) <= Distance(logs[id], r)
  {
    hide TokensExact, HasTokenFacts, Distance, AllCandidates, Passes;
    QueryComplete(logs, attributions, r, now);
    var ids := Query(logs, attributions, r, now);
    var i :| 0 <= i < |ids| && ids[i] == id;
  }

  /** The scan over the candidates. */
  method Choose(logs: seq<ApiLog>, candidates: seq<nat>, r: Record) returns (chosen: Option<nat>)
    requires forall i :: 0 <= i < |candidates| ==> candidates[i] < |logs|
    ensures chosen.Some? ==> Chosen(logs, candidates, r, chosen.value)
    ensures chosen.None? ==> forall k: nat :: !Chosen(logs, candidates, r, k)
  {
    if |candidates| == 0 {
      return None;
    }
    if HasTokenFacts(r) {
      chosen := None;
      for i := 0 to |candidates|
        invariant chosen.None? ==> forall j :: 0 <= j < i ==> !TokensExact(logs[candidates[j]], r)
        invariant chosen.Some? ==>
                    && chosen.value < i && TokensExact(logs[candidates[chosen.value]], r)
                    && (forall j :: 0 <= j < i && TokensExact(logs[candidates[j]], r) ==>
                          Distance(logs[candidates[chosen.value]], r) <= Distance(logs[candidates[j]], r))
                    && (forall j :: 0 <= j < chosen.value && TokensExact(logs[candidates[j]], r) ==>
                          Distance(logs[candidates[chosen.value]], r) < Distance(logs[candidates[j]], r))
      {
        if TokensExact(logs[candidates[i]], r) {
          if chosen.None? || Distance(logs[candidates[i]], r) < Distance(logs[candidates[chosen.value]], r) {
            chosen := Some(i);
          }
        }
      }
    } else {
      if |candidates| != 1 {
        return None;
      }
      chosen := Some(0);
    }
  }

  // --- Syncing ----------------------------------------------------------------------------------

  datatype SyncResult = SyncResult(fetched: nat, stored: nat, dropped: nat, matched: nat, unmatched: nat, ignored: nat)

  predicate IgnoredByKey(hash: string, platformKeys: set<string>) {
    platformKeys != {} && (Trim(hash) == "" || hash !in platformKeys)
  }

  /** What a match transaction has read before it writes. */
  datatype Reading = Skip | Candidates(ids: seq<nat>, now: int)

  function ReadingOf(t: Tables, id: nat, platformKeys: set<string>, now: int): Reading
    requires id < |t.records|
  {
    if IgnoredByKey(t.records[id].apiKeyHash, platformKeys) then Skip
    else Candidates(Query(t.logs, t.attributions, t.records[id], now), now)
  }

  function SetResult(records: seq<Record>, id: nat, result: MatchStatus): seq<Record>
    requires id < |records|
  {
    records[id := records[id].(result := result)]
  }

  /** The writes of a match transaction on whatever the tables have become since its reads. The
      unique index on the log refuses a log that another record has got meanwhile. */
  ghost function Written(t: Tables, id: nat, reading: Reading): Tables
    requires id < |t.records|
    requires reading.Candidates? ==> forall i :: 0 <= i < |reading.ids| ==> reading.ids[i] < |t.logs|
  {
    if reading.Skip? then t.(records := SetResult(t.records, id, Ignored))
    else
      var picked := Picked(t.logs, reading.ids, t.records[id]);
      if picked.None? || Attributed(t.attributions, picked.value) then
        t.(records := SetResult(t.records, id, Unmatched))
      else
        t.(records := SetResult(t.records, id, Matched(picked.value)),
           attributions := t.attributions + [Attribution(picked.value, id, reading.now)])
  }

  /** What one record's match transaction decides against this log table and these attributions. */
  ghost predicate Decided(logs: seq<ApiLog>, attributions: seq<Attribution>, r: Record, outcome: MatchStatus,
                          platformKeys: set<string>, now: int)
  {
    var ids := Query(logs, attributions, r, now);
    && outcome != Pending
    && (outcome == Ignored <==> IgnoredByKey(r.apiKeyHash, platformKeys))
    && (outcome == Unmatched ==> forall k: nat :: !Chosen(logs, ids, r, k))
    && (outcome.Matched? ==> exists k: nat :: Chosen(logs, ids, r, k) && ids[k] == outcome.log)
  }

  /** What became of a stored row: a failed transaction left it as it was; otherwise its outcome was
      decided at some point of the attribution history up to now. */
  ghost predicate RowOutcome(logs: seq<ApiLog>, attributions: seq<Attribution>, r: Record, r': Record, failed: bool,
                             platformKeys: set<string>, now: int)
  {
    if failed then r' == r
    else
      && r' == r.(result := r'.result)
      && exists m :: 0 <= m <= |attributions| && Decided(logs, attributions[..m], r, r'.result, platformKeys, now)
  }

  lemma RowOutcomeGrows(logs: seq<ApiLog>, attributions: seq<Attribution>, attributions': seq<Attribution>, r: Record,
                        r': Record, failed: bool, platformKeys: set<string>, now: int)
    requires RowOutcome(logs, attributions, r, r', failed, platformKeys, now) && attributions <= attributions'
    ensures RowOutcome(logs, attributions', r, r', failed, platformKeys, now)
  {
    if !failed {
      var m :| 0 <= m <= |attributions| && Decided(logs, attributions[..m], r, r'.result, platformKeys, now);
      assert attributions'[..m] == attributions[..m];
    }
  }

  lemma RowOutcomeNow(logs: seq<ApiLog>, before: seq<Attribution>, attributions: seq<Attribution>, r: Record,
                      outcome: MatchStatus, platformKeys: set<string>, now: int)
    requires Decided(logs, before, r, outcome, platformKeys, now) && before <= attributions
    ensures RowOutcome(logs, attributions, r, r.(result := outcome), false, platformKeys, now)
  {
    assert attributions[..|before|] == before;
  }

  /** A match is a pair of a log and a record that name each other, pass every filter, and
      agree on every token count the record states. */
  ghost predicate SoundMatch(a: Attribution, logs: seq<ApiLog>, records: seq<Record>) {
    && a.log < |logs| && a.record < |records|
    && records[a.record].result == Matched(a.log)
    && Passes(logs[a.log], records[a.record], a.queriedAt)
    && (HasTokenFacts(records[a.record]) ==> TokensExact(logs[a.log], records[a.record]))
  }

  /** The attributions are a partial injection between records and logs, in both directions. */
  ghost predicate PartialInjection(logs: seq<ApiLog>, records: seq<Record>, attributions: seq<Attribution>) {
    && (forall i :: 0 <= i < |attributions| ==> SoundMatch(attributions[i], logs, records))
    && (forall i, j :: 0 <= i < j < |attributions| ==>
          attributions[i].log != attributions[j].log && attributions[i].record != attributions[j].record)
    && (forall r :: 0 <= r < |records| && records[r].result.Matched? ==>
          exists i :: 0 <= i < |attributions| && attributions[i].record == r)
  }

  lemma InjectionMatch(logs: seq<ApiLog>, records: seq<Record>, attributions: seq<Attribution>, a: Attribution,
                       r': Record)
    requires PartialInjection(logs, records, attributions)
    requires a.record < |records| && records[a.record].result == Pending && a.log < |logs|
    requires !Attributed(attributions, a.log)
    requires r' == records[a.record].(result := Matched(a.log))
    requires Passes(logs[a.log], records[a.record], a.queriedAt)
    requires HasTokenFacts(r') ==> TokensExact(logs[a.log], r')
    ensures PartialInjection(logs, records[a.record := r'], attributions + [a])
  {
    hide Passes, TokensExact, HasTokenFacts;
    var records' := records[a.record := r'];
    var attributions' := attributions + [a];
    SameFilters(logs[a.log], records[a.record], r', a.queriedAt);
    forall i | 0 <= i < |attributions'| ensures SoundMatch(attributions'[i], logs, records') {
      if i < |attributions| {
        assert SoundMatch(attributions[i], logs, records);
      }
    }
    forall i | 0 <= i < |attributions| ensures attributions[i].record != a.record {
      assert SoundMatch(attributions[i], logs, records);
    }
    MatchedAreNamed(records, records', attributions, a, r');
  }

  lemma MatchedAreNamed(records: seq<Record>, records': seq<Record>, attributions: seq<Attribution>, a: Attribution,
                        r': Record)
    requires a.record < |records| && records' == records[a.record := r']
    requires forall r :: 0 <= r < |records| && records[r].result.Matched? ==>
               exists i :: 0 <= i < |attributions| && attributions[i].record == r
    ensures forall r :: 0 <= r < |records'| && records'[r].result.Matched? ==>
              exists i :: 0 <= i < |attributions + [a]| && (attributions + [a])[i].record == r
  {
    forall r | 0 <= r < |records'| && records'[r].result.Matched?
      ensures exists i :: 0 <= i < |attributions + [a]| && (attributions + [a])[i].record == r
    {
      if r == a.record {
        assert (attributions + [a])[|attributions|].record == r;
      } else {
        var i :| 0 <= i < |attributions| && attributions[i].record == r;
        assert (attributions + [a])[i].record == r;
      }
    }
  }

  /** No filter looks at the match result. */
  lemma SameFilters(log: ApiLog, r: Record, r': Record, now: int)
    requires r' == r.(result := r'.result)
    ensures Passes(log, r', now) == Passes(log, r, now) && TokensExact(log, r') == TokensExact(log, r)
    ensures HasTokenFacts(r') == HasTokenFacts(r)
  {
  }

  lemma InjectionSettled(logs: seq<ApiLog>, records: seq<Record>, attributions: seq<Attribution>, id: nat, r': Record)
    requires PartialInjection(logs, records, attributions) && id < |records| && records[id].result == Pending
    requires r' == records[id].(result := r'.result) && (r'.result == Ignored || r'.result == Unmatched)
    ensures PartialInjection(logs, records[id := r'], attributions)
  {
    forall i | 0 <= i < |attributions| ensures SoundMatch(attributions[i], logs, records[id := r']) {
      assert SoundMatch(attributions[i], logs, records);
    }
  }

  lemma InjectionGrows(logs: seq<ApiLog>, records: seq<Record>, attributions: seq<Attribution>, newLogs: seq<ApiLog>,
                       newRecords: seq<Record>)
    requires PartialInjection(logs, records, attributions)
    requires forall i :: 0 <= i < |newRecords| ==> newRecords[i].result == Pending
    ensures PartialInjection(logs + newLogs, records + newRecords, attributions)
  {
    forall i | 0 <= i < |attributions| ensures SoundMatch(attributions[i], logs + newLogs, records + newRecords) {
      assert SoundMatch(attributions[i], logs, records);
    }
  }

  class UsageStore {
    var logs: seq<ApiLog>
    var records: seq<Record>
    var attributions: seq<Attribution>

    ghost predicate Valid()
      reads this
    {
      PartialInjection(logs, records, attributions)
    }

    function State(): Tables
      reads this
    {
      Tables(logs, records, attributions)
    }

    constructor ()
      ensures Valid() && logs == [] && records == [] && attributions == []
    {
      logs, records, attributions := [], [], [];
    }

    /** A request was served and logged. */
    method AddLog(log: ApiLog)
      requires Valid()
      modifies `logs
      ensures Valid() && logs == old(logs) + [log]
    {
      InjectionGrows(logs, records, attributions, [log], []);
      assert records + [] == records;
      logs := logs + [log];
    }

    /** From the candidate list on. The list may be stale: another sync may have attributed one of
        its logs meanwhile, which the unique index on the log then refuses. */
    method Settle(id: nat, candidates: seq<nat>, now: int) returns (matched: bool)
      requires Valid() && id < |records| && records[id].result == Pending
      requires forall i :: 0 <= i < |candidates| ==>
                 candidates[i] < |logs| && Passes(logs[candidates[i]], records[id], now)
      modifies `records, `attributions
      ensures Valid()
      ensures |records| == |old(records)|
      ensures forall j :: 0 <= j < |old(records)| && j != id ==> records[j] == old(records)[j]
      ensures records[id] == old(records)[id].(result := records[id].result)
      ensures State() == Written(old(State()), id, Candidates(candidates, now))
      ensures matched ==>
                exists k: nat :: Chosen(logs, candidates, old(records)[id], k)
                  && !Attributed(old(attributions), candidates[k])
                  && attributions == old(attributions) + [Attribution(candidates[k], id, now)]
                  && records[id].result == Matched(candidates[k])
      ensures !matched ==>
                && attributions == old(attributions) && records[id].result == Unmatched
                && forall k: nat :: Chosen(logs, candidates, old(records)[id], k) ==>
                     Attributed(attributions, candidates[k])
    {
      var r := records[id];
      var chosen := Choose(logs, candidates, r);
      if chosen.Some? {
        PickedIs(logs, candidates, r, chosen.value);
      }
      if chosen.None? || Attributed(attributions, candidates[chosen.value]) {
        InjectionSettled(logs, records, attributions, id, r.(result := Unmatched));
        records := records[id := r.(result := Unmatched)];
        forall k: nat | Chosen(logs, candidates, r, k) ensures chosen == Some(k) {
          if chosen.Some? {
            ChosenUnique(logs, candidates, r, k, chosen.value);
          }
        }
        return false;
      }
      var log := candidates[chosen.value];
      var a := Attribution(log, id, now);
      var r' := r.(result := Matched(log));
      SameFilters(logs[log], r, r', now);
      InjectionMatch(logs, records, attributions, a, r');
      attributions := attributions + [a];
      records := records[id := r'];
      return true;
    }

    /** The reads and the choice of a match transaction, without its writes. */
    method Decide(id: nat, platformKeys: set<string>, now: int) returns (outcome: MatchStatus)
      requires id < |records|
      ensures Decided(logs, attributions, records[id], outcome, platformKeys, now)
    {
      hide Passes, TokensExact, IgnoredByKey;
      if IgnoredByKey(records[id].apiKeyHash, platformKeys) {
        return Ignored;
      }
      var candidates := Query(logs, attributions, records[id], now);
      var chosen := Choose(logs, candidates, records[id]);
      outcome := if chosen.None? then Unmatched else Matched(candidates[chosen.value]);
    }

    /** One stored record: ignore it, or query and settle. */
    method MatchRecord(id: nat, platformKeys: set<string>, now: int) returns (outcome: MatchStatus)
      requires Valid() && id < |records| && records[id].result == Pending
      modifies `records, `attributions
      ensures Valid() && Decided(logs, old(attributions), old(records)[id], outcome, platformKeys, now)
      ensures State() == Written(old(State()), id, ReadingOf(old(State()), id, platformKeys, now))
      ensures records == old(records)[id := old(records)[id].(result := outcome)]
      ensures attributions == old(attributions)
                + (if outcome.Matched? then [Attribution(outcome.log, id, now)] else [])
    {
      hide Passes, TokensExact, IgnoredByKey, PartialInjection;
      if IgnoredByKey(records[id].apiKeyHash, platformKeys) {
        InjectionSettled(logs, records, attributions, id, records[id].(result := Ignored));
        records := records[id := records[id].(result := Ignored)];
        return Ignored;
      }
      var candidates := Query(logs, attributions, records[id], now);
      forall i | 0 <= i < |candidates|
        ensures Passes(logs[candidates[i]], records[id], now) && !Attributed(attributions, candidates[i])
      {
        QueryExactly(logs, attributions, records[id], now, candidates[i]);
        CandidateMeans(logs, attributions, records[id], now, candidates[i]);
      }
      var matched := Settle(id, candidates, now);
      outcome := records[id].result;
    }

    /** Try the whole batch; if any row is refused, insert row by row and drop the bad ones.
        storable says which rows the database accepts; ids holds the new row ids. */
    method StoreBatch(batch: seq<Record>, storable: seq<bool>)
      returns (ids: seq<Option<nat>>, stored: nat, dropped: nat)
      requires Valid() && |storable| == |batch|
      requires forall i :: 0 <= i < |batch| ==> batch[i].result == Pending
      modifies `records
      ensures Valid() && |ids| == |batch| && |batch| == stored + dropped && stored == CountSome(ids)
      ensures old(records) <= records && |records| == |old(records)| + stored
      ensures forall i :: 0 <= i < |batch| ==> (ids[i].Some? <==> storable[i])
      ensures RowsAt(records, |old(records)|, batch, ids)
    {
      if forall i :: 0 <= i < |storable| ==> storable[i] {
        ids := InsertAll(batch);
        return ids, |batch|, 0;
      }
      ids, stored, dropped := InsertRows(batch, storable);
    }

    /** The batch insert. */
    method InsertAll(batch: seq<Record>) returns (ids: seq<Option<nat>>)
      requires Valid()
      requires forall i :: 0 <= i < |batch| ==> batch[i].result == Pending
      modifies `records
      ensures Valid() && records == old(records) + batch && |ids| == |batch| == CountSome(ids)
      ensures forall i :: 0 <= i < |batch| ==> ids[i] == Some(|old(records)| + i)
    {
      hide PartialInjection;
      InjectionGrows(logs, records, attributions, [], batch);
      assert logs + [] == logs;
      var first := |records|;
      ids := seq(|batch|, i requires 0 <= i < |batch| => Some(first + i));
      AllSome(ids);
      records := records + batch;
    }

    /** The fallback, row by row. */
    method InsertRows(batch: seq<Record>, storable: seq<bool>)
      returns (ids: seq<Option<nat>>, stored: nat, dropped: nat)
      requires Valid() && |storable| == |batch|
      requires forall i :: 0 <= i < |batch| ==> batch[i].result == Pending
      modifies `records
      ensures Valid() && |ids| == |batch| && |batch| == stored + dropped && stored == CountSome(ids)
      ensures old(records) <= records && |records| == |old(records)| + stored
      ensures forall i :: 0 <= i < |batch| ==> (ids[i].Some? <==> storable[i])
      ensures RowsAt(records, |old(records)|, batch, ids)
    {
      hide PartialInjection, CountSome;
      ids, stored, dropped := [], 0, 0;
      NoneCounted();
      for i := 0 to |batch|
        invariant Valid() && |ids| == i && i == stored + dropped && stored == CountSome(ids)
        invariant old(records) <= records && |records| == |old(records)| + stored
        invariant forall j :: 0 <= j < i ==> (ids[j].Some? <==> storable[j])
        invariant RowsAt(records, |old(records)|, batch[..i], ids)
      {
        CountSomeSnoc(ids, if storable[i] then Some(|records|) else None);
        RowsAtSnoc(records, |old(records)|, batch, ids, storable[i]);
        if storable[i] {
          InjectionGrows(logs, records, attributions, [], [batch[i]]);
          assert logs + [] == logs;
          ids := ids + [Some(|records|)];
          records := records + [batch[i]];
          stored := stored + 1;
        } else {
          ids := ids + [None];
          dropped := dropped + 1;
        }
      }
      assert batch[..|batch|] == batch;
    }

    /** One sync. platformKeys is None when the keys cannot be loaded. failing holds the rows whose
        match transaction fails and rolls back; those also in counted fail only after the result
        counter was raised; clocks[i] is the clock when record i is matched. The row ids say what became of
        each fetched record. */
    method StoreAndMatch(batch: seq<Record>, storable: seq<bool>, platformKeys: Option<set<string>>, failing: set<nat>,
                         counted: set<nat>, clocks: seq<int>)
      returns (result: SyncResult, ids: seq<Option<nat>>, uncounted: nat)
      requires Valid() && |storable| == |batch| == |clocks|
      requires forall i :: 0 <= i < |batch| ==> batch[i].result == Pending
      modifies `records, `attributions
      ensures Valid()
      ensures old(attributions) <= attributions && |records| == |old(records)| + result.stored
      ensures forall r :: 0 <= r < |old(records)| ==> records[r] == old(records)[r]
      ensures result.fetched == |batch| == result.stored + result.dropped
      ensures platformKeys.Some? ==> result.stored == result.matched + result.unmatched + result.ignored + uncounted
      ensures failing == {} ==> uncounted == 0 && |attributions| == |old(attributions)| + result.matched
      ensures |ids| == |batch| && forall i :: 0 <= i < |ids| ==> (ids[i].Some? <==> storable[i])
      ensures Ascending(ids, |old(records)|, |records|)
      ensures platformKeys.Some? ==>
                forall i :: 0 <= i < |ids| && ids[i].Some? ==>
                  RowOutcome(logs, attributions, batch[i], records[ids[i].value], ids[i].value in failing,
                             platformKeys.value, clocks[i])
      ensures platformKeys.None? ==>
                && attributions == old(attributions)
                && forall i :: 0 <= i < |ids| && ids[i].Some? ==> records[ids[i].value] == batch[i]
    {
      hide PartialInjection, RowOutcome, CountSome;
      var stored, dropped;
      ids, stored, dropped := StoreBatch(batch, storable);
      result := SyncResult(|batch|, stored, dropped, 0, 0, 0);
      uncounted := 0;
      if platformKeys.None? {
        return;
      }
      var matched, unmatched, ignored, silent :=
        MatchStored(|old(records)|, ids, platformKeys.value, failing, counted, clocks);
      result := result.(matched := matched, unmatched := unmatched, ignored := ignored);
      uncounted := silent;
    }

    /** Match the stored rows of a batch one after the other. */
    method MatchStored(ghost first: nat, ids: seq<Option<nat>>, platformKeys: set<string>, failing: set<nat>,
                       counted: set<nat>, clocks: seq<int>)
      returns (matched: nat, unmatched: nat, ignored: nat, silent: nat)
      requires Valid() && Ascending(ids, first, |records|) && |clocks| == |ids|
      requires forall i :: 0 <= i < |ids| && ids[i].Some? ==> records[ids[i].value].result == Pending
      modifies `records, `attributions
      ensures Valid() && |records| == |old(records)| && old(attributions) <= attributions
      ensures forall r :: 0 <= r < first && r < |records| ==> records[r] == old(records)[r]
      ensures CountSome(ids) == matched + unmatched + ignored + silent
      ensures failing == {} ==> silent == 0 && |attributions| == |old(attributions)| + matched
      ensures Outcomes(logs, attributions, old(records), records, ids, failing, platformKeys, clocks)
    {
      hide PartialInjection, CountSome, RowOutcome, Decided, Outcomes, Written, ReadingOf;
      NoOutcomes(logs, attributions, records, failing, platformKeys, clocks);
      matched, unmatched, ignored, silent := 0, 0, 0, 0;
      NoneCounted();
      assert ids[..0] == [];
      for i := 0 to |ids|
        invariant Valid() && |records| == |old(records)| && old(attributions) <= attributions
        invariant forall r :: 0 <= r < first && r < |records| ==> records[r] == old(records)[r]
        invariant forall j :: i <= j < |ids| && ids[j].Some? ==> records[ids[j].value] == old(records)[ids[j].value]
        invariant Outcomes(logs, attributions, old(records), records, ids[..i], failing, platformKeys, clocks)
        invariant CountSome(ids[..i]) == matched + unmatched + ignored + silent
        invariant failing == {} ==> silent == 0 && |attributions| == |old(attributions)| + matched
      {
        assert ids[..i + 1] == ids[..i] + [ids[i]];
        CountSomeSnoc(ids[..i], ids[i]);
        if ids[i].Some? {
          var id := ids[i].value;
          ghost var before, was := attributions, records;
          var outcome := Pending;
          if id !in failing {
            outcome := MatchRecord(id, platformKeys, clocks[i]);
            DecidedFinal(logs, before, old(records)[id], outcome, platformKeys, clocks[i]);
            RowOutcomeNow(logs, before, attributions, old(records)[id], outcome, platformKeys, clocks[i]);
          } else {
            FailedStays(logs, attributions, records[id], platformKeys, clocks[i]);
            if id in counted {
              outcome := Decide(id, platformKeys, clocks[i]);
            }
          }
          match outcome {
            case Matched(_) => matched := matched + 1;
            case Unmatched => unmatched := unmatched + 1;
            case Ignored => ignored := ignored + 1;
            case Pending => silent := silent + 1;
          }
          OutcomesGrow(logs, before, attributions, old(records), was, records, ids, i, failing, platformKeys, clocks);
        } else {
          OutcomesGrow(logs, attributions, attributions, old(records), records, records, ids, i, failing, platformKeys,
                       clocks);
        }
      }
      assert ids[..|ids|] == ids;
    }
  }

  /** What became of every stored row of the batch. */
  ghost predicate Outcomes(logs: seq<ApiLog>, attributions: seq<Attribution>, was: seq<Record>, records: seq<Record>,
                           ids: seq<Option<nat>>, failing: set<nat>, platformKeys: set<string>, clocks: seq<int>)
  {
    && |was| == |records| && |ids| <= |clocks|
    && forall i :: 0 <= i < |ids| && ids[i].Some? ==>
         && ids[i].value < |records|
         && RowOutcome(logs, attributions, was[ids[i].value], records[ids[i].value], ids[i].value in failing,
                       platformKeys, clocks[i])
  }

  lemma NoOutcomes(logs: seq<ApiLog>, attributions: seq<Attribution>, records: seq<Record>, failing: set<nat>,
                   platformKeys: set<string>, clocks: seq<int>)
    ensures Outcomes(logs, attributions, records, records, [], failing, platformKeys, clocks)
  {
  }

  /** One more row settled, the earlier ones untouched. */
  lemma OutcomesGrow(logs: seq<ApiLog>, before: seq<Attribution>, attributions: seq<Attribution>, start: seq<Record>,
                     was: seq<Record>, records: seq<Record>, ids: seq<Option<nat>>, i: nat, failing: set<nat>,
                     platformKeys: set<string>, clocks: seq<int>)
    requires i < |ids| <= |clocks| && before <= attributions && |was| == |records|
    requires Outcomes(logs, before, start, was, ids[..i], failing, platformKeys, clocks)
    requires forall j :: 0 <= j < i && ids[j].Some? && ids[j].value < |was| ==>
               records[ids[j].value] == was[ids[j].value]
    requires ids[i].Some? ==>
               && ids[i].value < |records|
               && RowOutcome(logs, attributions, start[ids[i].value], records[ids[i].value], ids[i].value in failing,
                             platformKeys, clocks[i])
    ensures Outcomes(logs, attributions, start, records, ids[..i + 1], failing, platformKeys, clocks)
  {
    hide RowOutcome;
    forall j | 0 <= j <= i && ids[..i + 1][j].Some?
      ensures ids[j].value < |records|
      ensures RowOutcome(logs, attributions, start[ids[j].value], records[ids[j].value], ids[j].value in failing,
                         platformKeys, clocks[j])
    {
      if j < i {
        assert ids[..i][j] == ids[j];
        RowOutcomeGrows(logs, before, attributions, start[ids[j].value], records[ids[j].value], ids[j].value in failing,
                        platformKeys, clocks[j]);
      }
    }
  }

  lemma DecidedFinal(logs: seq<ApiLog>, attributions: seq<Attribution>, r: Record, outcome: MatchStatus,
                     platformKeys: set<string>, now: int)
    requires Decided(logs, attributions, r, outcome, platformKeys, now)
    ensures outcome != Pending
  {
  }

  lemma FailedStays(logs: seq<ApiLog>, attributions: seq<Attribution>, r: Record, platformKeys: set<string>, now: int)
    ensures RowOutcome(logs, attributions, r, r, true, platformKeys, now)
  {
  }

  /** Row ids count upwards within [first, limit). */
  ghost predicate Ascending(ids: seq<Option<nat>>, first: nat, limit: nat) {
    && (forall i :: 0 <= i < |ids| && ids[i].Some? ==> first <= ids[i].value < limit)
    && (forall i, j :: 0 <= i < j < |ids| && ids[i].Some? && ids[j].Some? ==> ids[i].value < ids[j].value)
  }

  /** ids says where each stored row of the batch is, in order, from row first on. */
  ghost predicate RowsAt(records: seq<Record>, first: nat, batch: seq<Record>, ids: seq<Option<nat>>) {
    && |ids| == |batch|
    && (forall i :: 0 <= i < |ids| && ids[i].Some? ==>
          first <= ids[i].value < |records| && records[ids[i].value] == batch[i])
    && (forall i, j :: 0 <= i < j < |ids| && ids[i].Some? && ids[j].Some? ==> ids[i].value < ids[j].value)
  }

  lemma RowsAtSnoc(records: seq<Record>, first: nat, batch: seq<Record>, ids: seq<Option<nat>>, storable: bool)
    requires |ids| < |batch| && first <= |records| && RowsAt(records, first, batch[..|ids|], ids)
    ensures storable ==>
              RowsAt(records + [batch[|ids|]], first, batch[..|ids| + 1], ids + [Some(|records|)])
    ensures !storable ==> RowsAt(records, first, batch[..|ids| + 1], ids + [None])
  {
  }

  lemma NoneCounted()
    ensures CountSome([]) == 0
  {
  }

  lemma {:induction false} AllSome(ids: seq<Option<nat>>)
    requires forall i :: 0 <= i < |ids| ==> ids[i].Some?
    ensures CountSome(ids) == |ids|
  {
    if ids != [] {
      AllSome(ids[..|ids| - 1]);
    }
  }

  function CountSome(ids: seq<Option<nat>>): nat {
    if ids == [] then 0 else CountSome(ids[..|ids| - 1]) + (if ids[|ids| - 1].Some? then 1 else 0)
  }

  lemma CountSomeSnoc(ids: seq<Option<nat>>, id: Option<nat>)
    ensures CountSome(ids + [id]) == CountSome(ids) + (if id.Some? then 1 else 0)
  {
    assert (ids + [id])[..|ids|] == ids;
  }
}
