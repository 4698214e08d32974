/** What the attribution of usage records decides, in terms of the rows alone: which logs a record may
    be attributed to, on which counts the two agree, and which of several is taken. */
module MatchDecisions {
  import opened RmbCodec
  import opened Attribution
  import opened UsageRuns

  // --- White space and endpoints -----------------------------------------------------------------

  ghost predicate AllSpace(s: string) {
    forall i :: 0 <= i < |s| ==> IsSpace(s[i])
  }

  ghost predicate Word(s: string) {
    s != "" && forall i :: 0 <= i < |s| ==> !IsSpace(s[i])
  }

  /** White space is the 25 characters of Unicode's White_Space property. */
  lemma SpacesAre(c: char)
    ensures IsSpace(c) <==>
            c as int in {0x9, 0xA, 0xB, 0xC, 0xD, 0x20, 0x85, 0xA0, 0x1680, 0x2000, 0x2001, 0x2002, 0x2003, 0x2004,
                         0x2005, 0x2006, 0x2007, 0x2008, 0x2009, 0x200A, 0x2028, 0x2029, 0x202F, 0x205F, 0x3000}
  {
  }

  lemma {:induction false} TrimLeftOf(a: string, s: string)
    requires AllSpace(a) && (s != "" ==> !IsSpace(s[0]))
    ensures TrimLeft(a + s) == s
  {
    if a == "" {
      assert a + s == s;
    } else {
      assert (a + s)[1..] == a[1..] + s;
      TrimLeftOf(a[1..], s);
    }
  }

  lemma {:induction false} TrimRightOf(s: string, b: string)
    requires AllSpace(b) && (s != "" ==> !IsSpace(s[|s| - 1]))
    ensures TrimRight(s + b) == s
  {
    if b == "" {
      assert s + b == s;
    } else {
      var last := |b| - 1;
      assert (s + b)[..|s + b| - 1] == s + b[..last];
      TrimRightOf(s, b[..last]);
    }
  }

  /** Trimming takes the white space off both ends and nothing else. */
  lemma TrimExactly(a: string, t: string, b: string)
    requires AllSpace(a) && AllSpace(b) && (t != "" ==> !IsSpace(t[0]) && !IsSpace(t[|t| - 1]))
    ensures Trim(a + t + b) == t
  {
    if t == "" {
      assert a + t + b == (a + b) + "";
      TrimLeftOf(a + b, "");
    } else {
      assert a + t + b == a + (t + b);
      TrimLeftOf(a, t + b);
      TrimRightOf(t, b);
    }
  }

  lemma {:induction false} SkipsGap(gap: string, s: string)
    requires AllSpace(gap) && (s != "" ==> !IsSpace(s[0]))
    ensures SkipSpaces(gap + s) == |gap|
  {
    if gap == "" {
      assert gap + s == s;
    } else {
      assert (gap + s)[1..] == gap[1..] + s;
      SkipsGap(gap[1..], s);
    }
  }

  lemma {:induction false} TakesWord(w: string, rest: string)
    requires (forall i :: 0 <= i < |w| ==> !IsSpace(w[i])) && (rest != "" ==> IsSpace(rest[0]))
    ensures WordLength(w + rest) == |w|
  {
    if w == "" {
      assert w + rest == rest;
    } else {
      assert (w + rest)[1..] == w[1..] + rest;
      TakesWord(w[1..], rest);
    }
  }

  lemma FieldAfterGap(gap: string, w: string, rest: string)
    requires AllSpace(gap) && Word(w) && (rest != "" ==> IsSpace(rest[0]))
    ensures Fields(gap + w + rest) == [w] + Fields(rest)
  {
    var s := gap + w + rest;
    assert s == gap + (w + rest);
    SkipsGap(gap, w + rest);
    assert s[|gap|..] == w + rest;
    TakesWord(w, rest);
    assert (w + rest)[..|w|] == w && (w + rest)[|w|..] == rest;
  }

  lemma WordTrims(w: string)
    requires Word(w)
    ensures Trim(w) == w
  {
    TrimExactly("", w, "");
    assert "" + w + "" == w;
  }

  lemma TwoFields(verb: string, gap: string, path: string, rest: string)
    requires Word(verb) && AllSpace(gap) && gap != "" && Word(path) && (rest != "" ==> IsSpace(rest[0]))
    ensures Fields(verb + gap + path + rest) == [verb, path] + Fields(rest)
  {
    hide Fields;
    var tail := gap + path + rest;
    assert verb + gap + path + rest == "" + verb + tail;
    FieldAfterGap("", verb, tail);
    FieldAfterGap(gap, path, rest);
  }

  /** An endpoint of two words or more names its second word as the path. */
  lemma PathOfTwoWords(verb: string, gap: string, path: string, rest: string, endpoint: string)
    requires Word(verb) && AllSpace(gap) && gap != "" && Word(path) && (rest != "" ==> IsSpace(rest[0]))
    requires Trim(endpoint) == verb + gap + path + rest
    ensures EndpointPath(endpoint) == path
  {
    hide Fields, Trim, IsSpace;
    TwoFields(verb, gap, path, rest);
    WordTrims(path);
  }

  /** One of a single word is the path if it starts with a slash; otherwise the path is not compared. */
  lemma PathOfOneWord(endpoint: string)
    requires forall i :: 0 <= i < |Trim(endpoint)| ==> !IsSpace(Trim(endpoint)[i])
    ensures EndpointPath(endpoint) == if endpoint != "" && endpoint[0] == '/' then Trim(endpoint) else ""
  {
    var t := Trim(endpoint);
    if t != "" {
      FieldAfterGap("", t, "");
      assert "" + t + "" == t;
    }
  }

  // --- Which logs a record may have -----------------------------------------------------------------

  /** A name the record goes by: its alias or its model, trimmed, or "unknown" if both are blank. */
  ghost predicate GoesBy(r: Record, name: string) {
    || (name != "" && (name == Trim(r.alias) || name == Trim(r.model)))
    || (name == "unknown" && Trim(r.alias) == "" && Trim(r.model) == "")
  }

  lemma NamesExactly(r: Record, name: string)
    ensures name in Names(r) <==> GoesBy(r, name)
  {
    hide Trim;
    var both := [r.alias, r.model];
    assert both[..1] == [r.alias] && [r.alias][..0] == [];
    assert Compact([r.alias]) == if Trim(r.alias) == "" then [] else [Trim(r.alias)];
    var value := Trim(r.model);
    assert Compact(both) == if value == "" || value in Compact([r.alias]) then Compact([r.alias])
                            else Compact([r.alias]) + [value];
  }

  /** The log is free to be attributed, was written in the record's time window, names one of its models
      and its endpoint, and succeeded or failed as the record did. */
  ghost predicate Eligible(log: ApiLog, r: Record, now: int) {
    && !log.preassigned
    && (match r.timestamp
        case None => now - 600_000_000 <= log.createdAt <= now + 60_000_000
        case Some(at) => at - 20_000_000 <= log.createdAt <= at + r.latencyMs * 1_000 + 90_000_000)
    && (GoesBy(r, log.modelName) || GoesBy(r, log.requestedModel) || GoesBy(r, log.servedModel))
    && (EndpointPath(r.endpoint) == "" || EndpointPath(r.endpoint) == log.path)
    && (if r.failed || r.status >= 400 then log.status >= 400 else 200 <= log.status < 400)
  }

  /** Log and record agree on every count the record states: prompt, completion, reasoning, cache read,
      cache write, and the total with or without reasoning. */
  ghost predicate SameCounts(log: ApiLog, r: Record) {
    && r.inputTokens in {0, log.promptTokens}
    && r.outputTokens in {0, log.completionTokens}
    && r.reasoningTokens in {0, log.reasoningTokens}
    && (if r.cacheReadTokens > 0 then log.cachedTokens == r.cacheReadTokens
        else r.cachedTokens in {0, log.cachedTokens})
    && r.cacheCreationTokens in {0, log.cacheWriteTokens}
    && r.totalTokens in {0, log.promptTokens + log.completionTokens,
                         log.promptTokens + log.completionTokens + log.reasoningTokens}
  }

  /** The record states no count at all. */
  ghost predicate Countless(r: Record) {
    r.inputTokens + r.outputTokens + r.reasoningTokens + r.cachedTokens + r.cacheReadTokens + r.cacheCreationTokens
    + r.totalTokens == 0
  }

  lemma PassesExactly(log: ApiLog, r: Record, now: int)
    ensures Passes(log, r, now) <==> Eligible(log, r, now)
  {
    hide EndpointPath, Names, GoesBy;
    NamesExactly(r, log.modelName);
    NamesExactly(r, log.requestedModel);
    NamesExactly(r, log.servedModel);
  }

  lemma CountsExactly(log: ApiLog, r: Record)
    ensures TokensExact(log, r) <==> SameCounts(log, r)
    ensures HasTokenFacts(r) <==> !Countless(r)
  {
  }

  // --- Every run ---------------------------------------------------------------------------------------

  /** Over every interleaving of syncs, a log and the record it was attributed to agree on each count the
      record states, and the log was eligible when the record was read. */
  lemma AttributedAgree(steps: seq<Step>, i: nat)
    requires i < |Run(steps).tables.attributions|
    ensures var t := Run(steps).tables;
            var a := t.attributions[i];
            && a.log < |t.logs| && a.record < |t.records|
            && var log, r := t.logs[a.log], t.records[a.record];
               && r.result == Matched(a.log) && Eligible(log, r, a.queriedAt)
               && (r.inputTokens > 0 ==> log.promptTokens == r.inputTokens)
               && (r.outputTokens > 0 ==> log.completionTokens == r.outputTokens)
               && (r.reasoningTokens > 0 ==> log.reasoningTokens == r.reasoningTokens)
               && (r.cacheReadTokens > 0 ==> log.cachedTokens == r.cacheReadTokens)
               && (r.cacheReadTokens == 0 && r.cachedTokens > 0 ==> log.cachedTokens == r.cachedTokens)
               && (r.cacheCreationTokens > 0 ==> log.cacheWriteTokens == r.cacheCreationTokens)
               && (r.totalTokens > 0 ==>
                     || r.totalTokens == log.promptTokens + log.completionTokens
                     || r.totalTokens == log.promptTokens + log.completionTokens + log.reasoningTokens)
  {
    hide Run, Usable, Eligible, Passes, TokensExact, HasTokenFacts;
    Reachable(steps);
    var t := Run(steps).tables;
    var a := t.attributions[i];
    assert SoundMatch(a, t.logs, t.records);
    PassesExactly(t.logs[a.log], t.records[a.record], a.queriedAt);
    CountsExactly(t.logs[a.log], t.records[a.record]);
  }

  // --- One record --------------------------------------------------------------------------------------------

  /** The eligible logs that no record has yet. */
  ghost function OpenLogs(t: Tables, r: Record, now: int): set<nat> {
    set j: nat | j < |t.logs| && Eligible(t.logs[j], r, now)
                 && forall i :: 0 <= i < |t.attributions| ==> t.attributions[i].log != j
  }

  lemma CandidatesAre(t: Tables, r: Record, now: int, j: nat)
    ensures Candidate(t.logs, t.attributions, r, now, j) <==> j in OpenLogs(t, r, now)
  {
    hide Passes, Eligible;
    if j < |t.logs| {
      PassesExactly(t.logs[j], r, now);
    }
  }

  lemma {:induction false} SizeOfDistinct(ids: seq<nat>, ids': set<nat>)
    requires var counted: multiset<nat> := multiset(ids);
             forall j: nat :: counted[j] == if j in ids' then 1 else 0
    ensures |ids| == |ids'|
  {
    if ids == [] {
      assert forall j: nat :: j !in ids';
    } else {
      var last := |ids| - 1;
      assert ids == ids[..last] + [ids[last]];
      assert multiset(ids) == multiset(ids[..last]) + multiset{ids[last]};
      SizeOfDistinct(ids[..last], ids' - {ids[last]});
    }
  }

  lemma OpenAreQueried(t: Tables, r: Record, now: int)
    requires |OpenLogs(t, r, now)| <= 50
    ensures forall j: nat :: j in Query(t.logs, t.attributions, r, now) <==> j in OpenLogs(t, r, now)
    ensures |Query(t.logs, t.attributions, r, now)| == |OpenLogs(t, r, now)|
  {
    hide Candidate, AllCandidates, OpenLogs;
    var all := AllCandidates(t.logs, t.attributions, r, now, |t.logs|);
    var counted: multiset<nat> := multiset(all);
    forall j: nat ensures counted[j] == if j in OpenLogs(t, r, now) then 1 else 0 {
      AllCandidatesExactly(t.logs, t.attributions, r, now, |t.logs|, j);
      CandidateInRange(t.logs, t.attributions, r, now, j);
      CandidatesAre(t, r, now, j);
    }
    SizeOfDistinct(all, OpenLogs(t, r, now));
    forall j: nat ensures j in all <==> j in OpenLogs(t, r, now) {
      assert j in all <==> j in counted;
    }
  }

  /** How far the log lies from the time the record ended: its timestamp and, if positive, its latency. */
  ghost predicate NoFarther(log: ApiLog, other: ApiLog, r: Record) {
    r.timestamp.Some? ==>
      var end := r.timestamp.value + (if r.latencyMs > 0 then r.latencyMs * 1_000 else 0);
      var d, d' := log.createdAt - end, other.createdAt - end;
      (if d < 0 then -d else d) <= (if d' < 0 then -d' else d')
  }

  lemma DistanceExactly(log: ApiLog, other: ApiLog, r: Record)
    ensures Distance(log, r) <= Distance(other, r) <==> NoFarther(log, other, r)
  {
  }

  /** What a match transaction without interference makes of a record. The keys decide whether it is
      ignored. Otherwise, with at most fifty open logs: if the record states counts, it gets an open log
      that agrees on all of them, the nearest in time, and stays unmatched exactly if there is none; if it
      states none, it gets the open log exactly if there is a single one. */
  ghost predicate MatchedAs(t: Tables, id: nat, platformKeys: set<string>, now: int, t': Tables)
    requires id < |t.records|
  {
    var r := t.records[id];
    var open := OpenLogs(t, r, now);
    && t'.logs == t.logs && |t'.records| == |t.records|
    && t'.records == t.records[id := r.(result := t'.records[id].result)]
    && (if platformKeys != {} && (Trim(r.apiKeyHash) == "" || r.apiKeyHash !in platformKeys) then
          t'.records[id].result == Ignored && t'.attributions == t.attributions
        else
          match t'.records[id].result
          case Pending => false
          case Ignored => false
          case Unmatched =>
            && t'.attributions == t.attributions
            && (!Countless(r) ==> forall j: nat :: j in open ==> !SameCounts(t.logs[j], r))
            && (Countless(r) ==> forall j: nat :: open != {j})
          case Matched(log) =>
            && log in open && t'.attributions == t.attributions + [Attribution(log, id, now)]
            && (Countless(r) ==> open == {log})
            && (!Countless(r) ==> SameCounts(t.logs[log], r)
                                  && forall j: nat :: j in open && SameCounts(t.logs[j], r) ==>
                                       NoFarther(t.logs[log], t.logs[j], r)))
  }

  lemma MatchExactly(t: Tables, id: nat, platformKeys: set<string>, now: int)
    requires id < |t.records| && |OpenLogs(t, t.records[id], now)| <= 50
    ensures MatchedAs(t, id, platformKeys, now, Written(t, id, ReadingOf(t, id, platformKeys, now)))
  {
    hide OpenLogs, Query, Countless, SameCounts, TokensExact, HasTokenFacts, NoFarther, Distance, Candidate;
    var r := t.records[id];
    if !IgnoredByKey(r.apiKeyHash, platformKeys) {
      var ids := Query(t.logs, t.attributions, r, now);
      OpenAreQueried(t, r, now);
      forall j: nat | j < |t.logs|
        ensures TokensExact(t.logs[j], r) <==> SameCounts(t.logs[j], r)
      {
        CountsExactly(t.logs[j], r);
      }
      CountlessExactly(r);
      if HasTokenFacts(r) {
        NearestTaken(t, id, ids, now);
      } else {
        SingleTaken(t, id, ids, now);
      }
    }
  }

  lemma CountlessExactly(r: Record)
    ensures HasTokenFacts(r) <==> !Countless(r)
  {
  }

  lemma QueriedFree(t: Tables, r: Record, now: int, j: nat)
    requires j in OpenLogs(t, r, now)
    ensures j < |t.logs| && !Attributed(t.attributions, j)
  {
  }

  lemma SingleTaken(t: Tables, id: nat, ids: seq<nat>, now: int)
    requires id < |t.records| && !HasTokenFacts(t.records[id])
    requires (forall i :: 0 <= i < |ids| ==> ids[i] < |t.logs|) && |ids| == |OpenLogs(t, t.records[id], now)|
    requires forall j: nat :: j in ids <==> j in OpenLogs(t, t.records[id], now)
    ensures var open := OpenLogs(t, t.records[id], now);
            var t' := Written(t, id, Candidates(ids, now));
            if |ids| == 1 then
              && open == {ids[0]} && t'.records[id].result == Matched(ids[0])
              && t'.attributions == t.attributions + [Attribution(ids[0], id, now)]
            else t'.records[id].result == Unmatched && t'.attributions == t.attributions
                 && forall j: nat :: open != {j}
  {
    hide OpenLogs, HasTokenFacts, TokensExact, Attributed, Distance;
    var r := t.records[id];
    if |ids| == 1 {
      assert ids[0] in ids;
      QueriedFree(t, r, now, ids[0]);
      PickedIs(t.logs, ids, r, 0);
      forall j: nat | j in OpenLogs(t, r, now) ensures j == ids[0] {
      }
    } else {
      assert forall k: nat :: !Chosen(t.logs, ids, r, k);
    }
  }

  lemma NearestTaken(t: Tables, id: nat, ids: seq<nat>, now: int)
    requires id < |t.records| && HasTokenFacts(t.records[id])
    requires forall i :: 0 <= i < |ids| ==> ids[i] < |t.logs|
    requires forall j: nat :: j in ids <==> j in OpenLogs(t, t.records[id], now)
    ensures var r := t.records[id];
            var t' := Written(t, id, Candidates(ids, now));
            match t'.records[id].result
            case Pending => false
            case Ignored => false
            case Unmatched => t'.attributions == t.attributions
                              && forall j: nat :: j in ids ==> !TokensExact(t.logs[j], r)
            case Matched(log) =>
              && log in ids && t'.attributions == t.attributions + [Attribution(log, id, now)]
              && TokensExact(t.logs[log], r)
              && forall j: nat :: j in ids && TokensExact(t.logs[j], r) ==> NoFarther(t.logs[log], t.logs[j], r)
  {
    hide OpenLogs, HasTokenFacts, TokensExact, Attributed, Distance, NoFarther;
    var r := t.records[id];
    forall j: nat | j in ids ensures !Attributed(t.attributions, j) {
      QueriedFree(t, r, now, j);
    }
    if k: nat :| Chosen(t.logs, ids, r, k) {
      PickedIs(t.logs, ids, r, k);
      forall j: nat | j in ids && TokensExact(t.logs[j], r) ensures NoFarther(t.logs[ids[k]], t.logs[j], r) {
        var i :| 0 <= i < |ids| && ids[i] == j;
        DistanceExactly(t.logs[ids[k]], t.logs[j], r);
      }
    } else {
      NoneChosen(t.logs, ids, r);
    }
  }

  /** Where some candidate agrees on the counts, one is chosen. */
  lemma NoneChosen(logs: seq<ApiLog>, ids: seq<nat>, r: Record)
    requires (forall i :: 0 <= i < |ids| ==> ids[i] < |logs|) && HasTokenFacts(r)
    requires forall k: nat :: !Chosen(logs, ids, r, k)
    ensures forall j: nat :: j in ids ==> !TokensExact(logs[j], r)
  {
    hide TokensExact, HasTokenFacts, Distance;
    if j: nat :| j in ids && TokensExact(logs[j], r) {
      var i :| 0 <= i < |ids| && ids[i] == j;
      var k := FirstNearest(logs, ids, r, |ids|);
      assert false;
    }
  }

  lemma {:induction false} FirstNearest(logs: seq<ApiLog>, ids: seq<nat>, r: Record, n: nat) returns (k: nat)
    requires (forall i :: 0 <= i < |ids| ==> ids[i] < |logs|) && n <= |ids| && HasTokenFacts(r)
    requires exists i :: 0 <= i < n && TokensExact(logs[ids[i]], r)
    ensures k < n && Chosen(logs, ids[..n], r, k)
    ensures n == |ids| ==> Chosen(logs, ids, r, k)
  {
    hide TokensExact, HasTokenFacts, Distance;
    assert n == |ids| ==> ids[..n] == ids;
    var last := n - 1;
    if exists i :: 0 <= i < last && TokensExact(logs[ids[i]], r) {
      k := FirstNearest(logs, ids, r, last);
      if TokensExact(logs[ids[last]], r) && Distance(logs[ids[last]], r) < Distance(logs[ids[k]], r) {
        k := last;
      }
    } else {
      k := last;
    }
  }
}
