/** Any number of usage syncs at once: match transactions read first and write later, logs and
    records arrive in between, and transactions may roll back. A record is matched by the sync that
    stored it, so it is read once. */
module UsageRuns {
  import opened Options
  import opened Attribution

  // --- Steps --------------------------------------------------------------------------------

  datatype Step =
    | AddLog(log: ApiLog)
    | StoreRows(rows: seq<Record>)
    | Read(id: nat, platformKeys: set<string>, now: int)
    | Write(id: nat)
    | RollBack(id: nat)

  /** begun holds the records that were read; open, the readings whose writes are still to come. */
  datatype Syncs = Syncs(tables: Tables, begun: set<nat>, open: map<nat, Reading>)

  const START := Syncs(Tables([], [], []), {}, map[])

  function Fresh(rows: seq<Record>): seq<Record> {
    seq(|rows|, i requires 0 <= i < |rows| => rows[i].(result := Pending))
  }

  /** What was read can be written: the record and every log read exist. */
  predicate Writable(t: Tables, id: nat, reading: Reading) {
    && id < |t.records|
    && (reading.Candidates? ==> forall i :: 0 <= i < |reading.ids| ==> reading.ids[i] < |t.logs|)
  }

  ghost function Apply(s: Syncs, step: Step): Syncs {
    match step
    case AddLog(log) => s.(tables := s.tables.(logs := s.tables.logs + [log]))
    case StoreRows(rows) => s.(tables := s.tables.(records := s.tables.records + Fresh(rows)))
    case Read(id, platformKeys, now) =>
      if id < |s.tables.records| && id !in s.begun then
        s.(begun := s.begun + {id}, open := s.open[id := ReadingOf(s.tables, id, platformKeys, now)])
      else s
    case Write(id) =>
      if id in s.open && Writable(s.tables, id, s.open[id]) then
        s.(tables := Written(s.tables, id, s.open[id]), open := s.open - {id})
      else s
    case RollBack(id) => s.(open := s.open - {id})
  }

  ghost function Run(steps: seq<Step>): Syncs {
    if steps == [] then START else Apply(Run(steps[..|steps| - 1]), steps[|steps| - 1])
  }

  /** A served request adds its log; stored rows are added waiting; a rolled back transaction writes nothing
      and is over. */
  lemma ArrivalsExactly(s: Syncs, log: ApiLog, rows: seq<Record>, id: nat)
    ensures Apply(s, AddLog(log)) == s.(tables := s.tables.(logs := s.tables.logs + [log]))
    ensures var t, t' := s.tables, Apply(s, StoreRows(rows)).tables;
            && t' == t.(records := t'.records) && |t'.records| == |t.records| + |rows| && t.records <= t'.records
            && forall k :: 0 <= k < |rows| ==> t'.records[|t.records| + k] == rows[k].(result := Pending)
    ensures Apply(s, RollBack(id)) == s.(open := s.open - {id})
  {
  }

  // --- The invariant --------------------------------------------------------------------------

  /** A reading may be stale, but its logs still pass the record's filters. */
  ghost predicate Usable(t: Tables, id: nat, reading: Reading) {
    && Writable(t, id, reading) && t.records[id].result == Pending
    && (reading.Candidates? ==>
          forall i :: 0 <= i < |reading.ids| ==> Passes(t.logs[reading.ids[i]], t.records[id], reading.now))
  }

  ghost predicate Inv(s: Syncs) {
    && PartialInjection(s.tables.logs, s.tables.records, s.tables.attributions)
    && (forall id :: id in s.open ==> id in s.begun && Usable(s.tables, id, s.open[id]))
    && (forall id: nat :: id < |s.tables.records| && id !in s.begun ==> s.tables.records[id].result == Pending)
    && (forall id :: id in s.begun ==> id < |s.tables.records|)
  }

  /** Logs and attributions are append-only; a record changes only by being decided, once. */
  ghost predicate Grows(t: Tables, t': Tables) {
    && t.logs <= t'.logs && t.attributions <= t'.attributions && |t.records| <= |t'.records|
    && forall id: nat :: id < |t.records| ==>
         && t'.records[id] == t.records[id].(result := t'.records[id].result)
         && (t.records[id].result != Pending ==> t'.records[id] == t.records[id])
  }

  lemma ReadUsable(t: Tables, id: nat, platformKeys: set<string>, now: int)
    requires id < |t.records| && t.records[id].result == Pending
    ensures Usable(t, id, ReadingOf(t, id, platformKeys, now))
  {
    hide Passes, IgnoredByKey;
    var reading := ReadingOf(t, id, platformKeys, now);
    if reading.Candidates? {
      forall i | 0 <= i < |reading.ids| ensures Passes(t.logs[reading.ids[i]], t.records[id], now) {
        QueryExactly(t.logs, t.attributions, t.records[id], now, reading.ids[i]);
        CandidateMeans(t.logs, t.attributions, t.records[id], now, reading.ids[i]);
      }
    }
  }

  /** The choice of a usable reading passes the filters and agrees on the token counts. */
  lemma PickedSound(t: Tables, id: nat, reading: Reading)
    requires Usable(t, id, reading) && reading.Candidates?
    requires Picked(t.logs, reading.ids, t.records[id]).Some?
    ensures var log := Picked(t.logs, reading.ids, t.records[id]).value;
            && log < |t.logs| && Passes(t.logs[log], t.records[id], reading.now)
            && (HasTokenFacts(t.records[id]) ==> TokensExact(t.logs[log], t.records[id]))
  {
    hide Passes, TokensExact, HasTokenFacts, Distance;
  }

  lemma WriteKeeps(t: Tables, id: nat, reading: Reading)
    requires PartialInjection(t.logs, t.records, t.attributions) && Usable(t, id, reading)
    ensures var t' := Written(t, id, reading);
            && PartialInjection(t'.logs, t'.records, t'.attributions)
            && t'.logs == t.logs && Grows(t, t') && |t'.records| == |t.records|
            && (forall j: nat :: j < |t.records| && j != id ==> t'.records[j] == t.records[j])
  {
    hide PartialInjection, Passes, TokensExact, HasTokenFacts, Picked, Attributed;
    var r := t.records[id];
    if reading.Skip? {
      InjectionSettled(t.logs, t.records, t.attributions, id, r.(result := Ignored));
    } else {
      var picked := Picked(t.logs, reading.ids, r);
      if picked.None? || Attributed(t.attributions, picked.value) {
        InjectionSettled(t.logs, t.records, t.attributions, id, r.(result := Unmatched));
      } else {
        var r' := r.(result := Matched(picked.value));
        PickedSound(t, id, reading);
        SameFilters(t.logs[picked.value], r, r', reading.now);
        InjectionMatch(t.logs, t.records, t.attributions, Attribution(picked.value, id, reading.now), r');
      }
    }
  }

  /** A reading stays usable while other records are decided and rows arrive. */
  lemma UsableStays(t: Tables, t': Tables, id: nat, reading: Reading)
    requires Usable(t, id, reading) && Grows(t, t') && t'.records[id] == t.records[id]
    ensures Usable(t', id, reading)
  {
    hide Passes;
  }

  /** Whatever step of whatever sync comes next: the attributions stay a partial injection between
      records and logs, and nothing decided is undone. */
  lemma StepKeeps(s: Syncs, step: Step)
    requires Inv(s)
    ensures Inv(Apply(s, step)) && Grows(s.tables, Apply(s, step).tables)
  {
    hide PartialInjection, Passes, ReadingOf, Written, Usable;
    var t := s.tables;
    var s' := Apply(s, step);
    match step {
      case AddLog(log) =>
        InjectionGrows(t.logs, t.records, t.attributions, [log], []);
        assert t.records + [] == t.records;
      case StoreRows(rows) =>
        InjectionGrows(t.logs, t.records, t.attributions, [], Fresh(rows));
        assert t.logs + [] == t.logs;
      case Read(id, platformKeys, now) =>
        if id < |t.records| && id !in s.begun {
          ReadUsable(t, id, platformKeys, now);
        }
      case Write(id) =>
        if id in s.open && Writable(t, id, s.open[id]) {
          WriteKeeps(t, id, s.open[id]);
        }
      case RollBack(id) =>
    }
    forall id | id in s'.open && id in s.open ensures Usable(s'.tables, id, s'.open[id]) {
      UsableStays(t, s'.tables, id, s.open[id]);
    }
  }

  lemma {:induction false} Reachable(steps: seq<Step>)
    ensures Inv(Run(steps))
  {
    hide Apply, Usable;
    if steps != [] {
      Reachable(steps[..|steps| - 1]);
      StepKeeps(Run(steps[..|steps| - 1]), steps[|steps| - 1]);
    }
  }

  // --- What holds over every run ------------------------------------------------------------------

  /** However the syncs interleave, logs and matched records are a partial injection, and between
      any two states of a run no log, attribution or decided record changes. */
  lemma {:induction false} InjectionInEveryRun(steps: seq<Step>, n: nat)
    requires n <= |steps|
    ensures var t := Run(steps).tables; PartialInjection(t.logs, t.records, t.attributions)
    ensures Grows(Run(steps[..n]).tables, Run(steps).tables)
  {
    hide Apply, Usable, PartialInjection;
    Reachable(steps);
    if n == |steps| {
      assert steps[..n] == steps;
    } else {
      var front := steps[..|steps| - 1];
      assert front[..n] == steps[..n];
      InjectionInEveryRun(front, n);
      Reachable(front);
      StepKeeps(Run(front), steps[|steps| - 1]);
    }
  }

  function MatchedRecords(records: seq<Record>): set<nat> {
    set id: nat | id < |records| && records[id].result.Matched?
  }

  function AttributedRecords(attributions: seq<Attribution>): set<nat> {
    set i: nat | i < |attributions| :: attributions[i].record
  }

  lemma {:induction false} DistinctRecords(attributions: seq<Attribution>)
    requires forall i, j :: 0 <= i < j < |attributions| ==> attributions[i].record != attributions[j].record
    ensures |AttributedRecords(attributions)| == |attributions|
  {
    if attributions != [] {
      var last := |attributions| - 1;
      DistinctRecords(attributions[..last]);
      assert AttributedRecords(attributions)
             == AttributedRecords(attributions[..last]) + {attributions[last].record};
    }
  }

  /** No usage is attributed twice: there are as many attributions as matched records. */
  lemma AsManyAsMatched(steps: seq<Step>)
    ensures var t := Run(steps).tables; |t.attributions| == |MatchedRecords(t.records)|
  {
    hide Run, Usable;
    Reachable(steps);
    var t := Run(steps).tables;
    DistinctRecords(t.attributions);
    forall i | 0 <= i < |t.attributions| ensures t.attributions[i].record in MatchedRecords(t.records) {
      assert SoundMatch(t.attributions[i], t.logs, t.records);
    }
    assert AttributedRecords(t.attributions) == MatchedRecords(t.records);
  }

  // --- Where every outcome comes from ---------------------------------------------------------------

  /** Step n of the run is the read of this record's match transaction. */
  ghost predicate ReadAt(steps: seq<Step>, n: nat, id: nat) {
    && n < |steps| && steps[n].Read? && steps[n].id == id
    && id < |Run(steps[..n]).tables.records|
  }

  /** What has become of a record that was read in state t: its writes are still to come, or they were
      rolled back, or its result is what that reading gives; a record is unmatched only because nothing
      was chosen or because the chosen log belongs to another record. */
  ghost predicate Explained(t: Tables, id: nat, reading: Reading, s: Syncs)
    requires Writable(t, id, reading)
  {
    && id < |s.tables.records|
    && (id in s.open ==> s.open[id] == reading)
    && var r := t.records[id];
       s.tables.records[id] == r.(result := s.tables.records[id].result)
       && match s.tables.records[id].result
          case Pending => true
          case Ignored => reading.Skip?
          case Matched(log) => reading.Candidates? && Picked(t.logs, reading.ids, r) == Some(log)
          case Unmatched =>
            reading.Candidates?
            && (Picked(t.logs, reading.ids, r).Some? ==>
                  Attributed(s.tables.attributions, Picked(t.logs, reading.ids, r).value))
  }

  lemma ChosenGrows(logs: seq<ApiLog>, logs': seq<ApiLog>, ids: seq<nat>, r: Record, k: nat)
    requires logs <= logs' && forall i :: 0 <= i < |ids| ==> ids[i] < |logs|
    ensures Chosen(logs', ids, r, k) <==> Chosen(logs, ids, r, k)
  {
    hide TokensExact, Distance, HasTokenFacts;
    assert forall i :: 0 <= i < |ids| ==> logs'[ids[i]] == logs[ids[i]];
  }

  /** Logs that arrive later do not change the choice among those read; nor does the record's result. */
  lemma PickedGrows(logs: seq<ApiLog>, logs': seq<ApiLog>, ids: seq<nat>, r: Record)
    requires logs <= logs' && forall i :: 0 <= i < |ids| ==> ids[i] < |logs|
    ensures Picked(logs', ids, r) == Picked(logs, ids, r)
  {
    hide Chosen;
    forall k: nat ensures Chosen(logs', ids, r, k) <==> Chosen(logs, ids, r, k) {
      ChosenGrows(logs, logs', ids, r, k);
    }
    if k: nat :| Chosen(logs, ids, r, k) {
      PickedIs(logs, ids, r, k);
      PickedIs(logs', ids, r, k);
    }
  }

  lemma AttributedGrows(attributions: seq<Attribution>, attributions': seq<Attribution>, log: nat)
    requires attributions <= attributions' && Attributed(attributions, log)
    ensures Attributed(attributions', log)
  {
    var i :| 0 <= i < |attributions| && attributions[i].log == log;
    assert attributions'[i].log == log;
  }

  lemma ExplainedWrite(t: Tables, id: nat, reading: Reading, s: Syncs)
    requires Writable(t, id, reading) && Explained(t, id, reading, s) && Inv(s) && id in s.open
    requires t.records[id].result == Pending && t.logs <= s.tables.logs
    ensures Explained(t, id, reading, Apply(s, Write(id)))
  {
    hide Passes, PartialInjection, Picked;
    if reading.Candidates? {
      PickedGrows(t.logs, s.tables.logs, reading.ids, t.records[id]);
    }
  }

  lemma ExplainedStays(t: Tables, id: nat, reading: Reading, s: Syncs, step: Step)
    requires Writable(t, id, reading) && Explained(t, id, reading, s) && Inv(s) && id in s.begun
    requires step == Write(id) ==> id !in s.open
    ensures Explained(t, id, reading, Apply(s, step))
  {
    hide Passes, PartialInjection, Picked, Attributed, Written, ReadingOf;
    StepKeeps(s, step);
    OthersUntouched(s, step, id);
    if reading.Candidates? && Picked(t.logs, reading.ids, t.records[id]).Some? {
      var log := Picked(t.logs, reading.ids, t.records[id]).value;
      if Attributed(s.tables.attributions, log) {
        AttributedGrows(s.tables.attributions, Apply(s, step).tables.attributions, log);
      }
    }
  }

  lemma OthersUntouched(s: Syncs, step: Step, id: nat)
    requires Inv(s) && id in s.begun && (step == Write(id) ==> id !in s.open)
    ensures var s' := Apply(s, step);
            && id < |s'.tables.records| && s'.tables.records[id] == s.tables.records[id]
            && (id in s'.open ==> id in s.open && s'.open[id] == s.open[id])
  {
    hide PartialInjection, Written, ReadingOf;
    if step.Write? && step.id in s.open {
      WriteKeeps(s.tables, step.id, s.open[step.id]);
    }
  }

  /** Every record that was read: step n read it while it was pending, and Explained tells the rest. */
  ghost predicate Traced(steps: seq<Step>, n: nat, id: nat) {
    && ReadAt(steps, n, id)
    && var t := Run(steps[..n]).tables;
       var reading := ReadingOf(t, id, steps[n].platformKeys, steps[n].now);
       && Writable(t, id, reading) && t.records[id].result == Pending
       && Explained(t, id, reading, Run(steps))
  }

  lemma {:induction false} BegunTraced(steps: seq<Step>, id: nat) returns (n: nat)
    requires id in Run(steps).begun
    ensures Traced(steps, n, id)
  {
    hide Apply, Explained, ReadingOf, Usable;
    var last := |steps| - 1;
    var front := steps[..last];
    var s := Run(front);
    Reachable(front);
    if id in s.begun {
      n := BegunTraced(front, id);
      assert front[..n] == steps[..n];
      InjectionInEveryRun(front, n);
      var t := Run(front[..n]).tables;
      var reading := ReadingOf(t, id, steps[n].platformKeys, steps[n].now);
      if steps[last] == Write(id) && id in s.open {
        ExplainedWrite(t, id, reading, s);
      } else {
        ExplainedStays(t, id, reading, s, steps[last]);
      }
    } else {
      n := last;
      FirstRead(s, steps[last], id);
    }
  }

  lemma FirstRead(s: Syncs, step: Step, id: nat)
    requires Inv(s) && id !in s.begun && id in Apply(s, step).begun
    ensures step.Read? && step.id == id && id < |s.tables.records| && s.tables.records[id].result == Pending
    ensures var reading := ReadingOf(s.tables, id, step.platformKeys, step.now);
            Writable(s.tables, id, reading) && Explained(s.tables, id, reading, Apply(s, step))
  {
    hide Passes, PartialInjection, IgnoredByKey;
  }

  /** Over every run of interleaved syncs, a decided record goes back to one read of its own: it is
      ignored exactly by the keys known then, matched exactly with the log chosen among the candidates
      of that query, and unmatched exactly if that query gave no choice or its log went to another
      record; a stale list never leads to a second choice. */
  lemma OutcomesExplained(steps: seq<Step>, id: nat) returns (n: nat)
    requires id < |Run(steps).tables.records| && Run(steps).tables.records[id].result != Pending
    ensures ReadAt(steps, n, id)
    ensures var t := Run(steps[..n]).tables;
            var r := t.records[id];
            var ids := Query(t.logs, t.attributions, r, steps[n].now);
            var ignored := IgnoredByKey(r.apiKeyHash, steps[n].platformKeys);
            var now := Run(steps).tables;
            && (now.records[id].result == Ignored <==> ignored)
            && (now.records[id].result.Matched? ==> Picked(t.logs, ids, r) == Some(now.records[id].result.log))
            && (now.records[id].result == Unmatched <==>
                  && !ignored
                  && (Picked(t.logs, ids, r).Some? ==>
                        exists i :: 0 <= i < |now.attributions|
                                    && now.attributions[i].log == Picked(t.logs, ids, r).value
                                    && now.attributions[i].record != id))
  {
    hide Run, Passes, IgnoredByKey, Picked, Usable;
    Reachable(steps);
    n := BegunTraced(steps, id);
    var t := Run(steps[..n]).tables;
    var now := Run(steps).tables;
    forall i | 0 <= i < |now.attributions| ensures SoundMatch(now.attributions[i], now.logs, now.records) {
    }
    if now.records[id].result.Matched? {
      var i :| 0 <= i < |now.attributions| && now.attributions[i].record == id;
      assert now.attributions[i].log == now.records[id].result.log;
    }
  }
}
