/** The billing-rule revision schedule: publish now, schedule, cancel, and the activation cron.
    Handlers and cron read first and write later, so their reads may be stale. Times are in
    microseconds. */
module BillingRules {
  import opened Options

  const MIN_LEAD: int := 30 * 1_000_000

  datatype Revision = Revision(effectiveAt: int, immediate: bool)

  /** picked, checked and started are reads whose writes are still to come: the cron's winner,
      the cancellations that passed their check, and the clock readings of submissions. */
  datatype Schedule = Schedule(
    clock: int,
    revisions: seq<Revision>,
    cancelled: set<nat>,
    active: Option<nat>,
    picked: Option<nat>,
    checked: set<nat>,
    started: set<int>)

  const START := Schedule(0, [], {}, None, None, {}, {})

  datatype EffectiveAt = Blank | Malformed | At(time: int)

  // --- Behaviour -------------------------------------------------------------------------

  /** When the revision takes effect and whether that is at once; None is a refusal. */
  function ParseEffectiveAt(mode: string, raw: EffectiveAt, now: int): Option<(int, bool)> {
    if mode == "immediate" then Some((now, true))
    else if mode == "scheduled" && raw.At? && raw.time > now + MIN_LEAD then Some((raw.time, false))
    else None
  }

  /** The revisions an immediate one supersedes: whatever takes effect after it. */
  function Later(revisions: seq<Revision>, at: int): set<nat> {
    set i: nat | i < |revisions| && revisions[i].effectiveAt > at
  }

  /** persistBillingRulesUpdate for a request that read the clock as now. A cancellation that
      cannot be stored is only logged and the publication commits without it: skipped. */
  function Submit(s: Schedule, mode: string, raw: EffectiveAt, now: int, skipped: set<nat>): Schedule {
    match ParseEffectiveAt(mode, raw, now)
    case None => s
    case Some((at, activateNow)) =>
      var added := s.(revisions := s.revisions + [Revision(at, activateNow)]);
      if activateNow then
        added.(cancelled := s.cancelled + (Later(s.revisions, at) - skipped), active := Some(|s.revisions|))
      else added
  }

  predicate Cancellable(s: Schedule, id: nat) {
    id < |s.revisions| && s.revisions[id].effectiveAt > s.clock
  }

  predicate Due(s: Schedule, id: nat) {
    id < |s.revisions| && s.revisions[id].effectiveAt <= s.clock && id !in s.cancelled
  }

  /** a comes before b in (effective_at, id). */
  predicate Before(revisions: seq<Revision>, a: nat, b: nat)
    requires a < |revisions| && b < |revisions|
  {
    revisions[a].effectiveAt < revisions[b].effectiveAt
    || (revisions[a].effectiveAt == revisions[b].effectiveAt && a < b)
  }

  /** The cron's query over the first n revisions. */
  function WinnerOf(s: Schedule, n: nat): (winner: Option<nat>)
    requires n <= |s.revisions|
    ensures winner.Some? ==> winner.value < n
  {
    if n == 0 then None
    else
      var best := WinnerOf(s, n - 1);
      if !Due(s, n - 1) then best
      else if best.None? || s.revisions[best.value].effectiveAt <= s.revisions[n - 1].effectiveAt then Some(n - 1)
      else best
  }

  function Winner(s: Schedule): Option<nat> {
    WinnerOf(s, |s.revisions|)
  }

  /** applyBillingRuleRevision: re-check the cancellation, then overwrite the active rules. */
  function Activate(s: Schedule, id: nat): Schedule {
    if id in s.cancelled then s else s.(active := Some(id))
  }

  datatype Step =
    | Tick(elapsed: nat)
    | SubmitNow(mode: string, raw: EffectiveAt, skipped: set<nat>)
    | CancelNow(id: nat)
    | CronNow
    | SubmitRead
    | SubmitWrite(now: int, mode: string, raw: EffectiveAt, skipped: set<nat>)
    | CancelRead(id: nat)
    | CancelWrite(id: nat)
    | CronRead
    | CronWrite

  function Apply(s: Schedule, step: Step): Schedule {
    match step
    case Tick(elapsed) => s.(clock := s.clock + elapsed)
    case SubmitNow(mode, raw, skipped) => Submit(s, mode, raw, s.clock, skipped)
    case CancelNow(id) => if Cancellable(s, id) then s.(cancelled := s.cancelled + {id}) else s
    case CronNow => if Winner(s).Some? then Activate(s, Winner(s).value) else s
    case SubmitRead => s.(started := s.started + {s.clock})
    case SubmitWrite(now, mode, raw, skipped) => if now in s.started then Submit(s, mode, raw, now, skipped) else s
    case CancelRead(id) => if Cancellable(s, id) then s.(checked := s.checked + {id}) else s
    case CancelWrite(id) =>
      if id in s.checked then s.(cancelled := s.cancelled + {id}, checked := s.checked - {id}) else s
    case CronRead => s.(picked := Winner(s))
    case CronWrite => if s.picked.Some? then Activate(s, s.picked.value).(picked := None) else s
  }

  function Run(s: Schedule, steps: seq<Step>): Schedule {
    if steps == [] then s else Apply(Run(s, steps[..|steps| - 1]), steps[|steps| - 1])
  }

  // --- The cron's choice --------------------------------------------------------------------

  /** The cron selects the latest due revision that is not cancelled, if there is one. */
  lemma {:induction false} WinnerIsLatest(s: Schedule, n: nat)
    requires n <= |s.revisions|
    ensures WinnerOf(s, n) == None <==> forall id: nat :: id < n ==> !Due(s, id)
    ensures WinnerOf(s, n).Some? ==>
              && Due(s, WinnerOf(s, n).value)
              && forall id: nat :: id < n && Due(s, id) && id != WinnerOf(s, n).value ==>
                   Before(s.revisions, id, WinnerOf(s, n).value)
  {
    if n > 0 {
      WinnerIsLatest(s, n - 1);
    }
  }

  /** What a submission does: an immediate one is effective at its clock reading, becomes the active one
      and cancels whatever is due later, up to the cancellations that fail; a scheduled one, more than
      30 seconds ahead, is only added; anything else changes nothing. */
  lemma SubmitExactly(s: Schedule, mode: string, raw: EffectiveAt, now: int, skipped: set<nat>, id: nat)
    ensures var s' := Submit(s, mode, raw, now, skipped);
            if mode == "immediate" then
              && s' == s.(revisions := s.revisions + [Revision(now, true)], active := Some(|s.revisions|),
                          cancelled := s'.cancelled)
              && (id in s'.cancelled <==>
                    || id in s.cancelled
                    || (id < |s.revisions| && now < s.revisions[id].effectiveAt && id !in skipped))
            else if mode == "scheduled" && raw.At? && now + 30_000_000 < raw.time then
              s' == s.(revisions := s.revisions + [Revision(raw.time, false)])
            else s' == s
  {
  }

  /** Only a revision that has not taken effect can be cancelled. */
  lemma CancelExactly(s: Schedule, id: nat)
    ensures Apply(s, CancelNow(id))
            == if id < |s.revisions| && s.clock < s.revisions[id].effectiveAt
               then s.(cancelled := s.cancelled + {id}) else s
    ensures id in Apply(s, CancelRead(id)).checked
            <==> id in s.checked || (id < |s.revisions| && s.clock < s.revisions[id].effectiveAt)
  {
  }

  /** The halves of divided handlers: a submission remembers its clock reading, and writes what one with
      that reading does; a checked cancellation is written once, whatever happened since; the cron
      writes the winner it picked unless that was cancelled meanwhile, and forgets it. */
  lemma HalvesExactly(s: Schedule, id: nat, now: int, mode: string, raw: EffectiveAt, skipped: set<nat>, elapsed: nat)
    ensures Apply(s, Tick(elapsed)) == s.(clock := s.clock + elapsed)
    ensures Apply(s, SubmitRead) == s.(started := s.started + {s.clock})
    ensures Apply(s, SubmitWrite(now, mode, raw, skipped))
            == if now in s.started then Submit(s, mode, raw, now, skipped) else s
    ensures id in s.checked ==>
              Apply(s, CancelWrite(id)) == s.(cancelled := s.cancelled + {id}, checked := s.checked - {id})
    ensures id !in s.checked ==> Apply(s, CancelWrite(id)) == s
    ensures Apply(s, CronWrite)
            == if s.picked.Some? && s.picked.value !in s.cancelled then s.(active := s.picked, picked := None)
               else s.(picked := None)
  {
  }

  /** The cron makes the revision active that took effect last, the one added last on ties, among those
      in effect and not cancelled; with none it changes nothing. */
  lemma CronExactly(s: Schedule, id: nat)
    requires id < |s.revisions| && s.revisions[id].effectiveAt <= s.clock && id !in s.cancelled
    ensures var s' := Apply(s, CronNow);
            && s' == s.(active := s'.active) && s'.active.Some?
            && var w := s'.active.value;
               && w < |s.revisions| && w !in s.cancelled
               && s.revisions[id].effectiveAt <= s.revisions[w].effectiveAt <= s.clock
               && (s.revisions[id].effectiveAt == s.revisions[w].effectiveAt ==> id <= w)
    ensures Apply(s, CronRead).picked == Apply(s, CronNow).active
  {
    WinnerIsLatest(s, |s.revisions|);
    assert Due(s, id);
    hide WinnerOf;
  }

  lemma CronIdle(s: Schedule)
    requires forall id: nat :: id < |s.revisions| && s.revisions[id].effectiveAt <= s.clock ==> id in s.cancelled
    ensures Apply(s, CronNow) == s && Apply(s, CronRead).picked == None
  {
    WinnerIsLatest(s, |s.revisions|);
    hide WinnerOf;
  }

  // --- Every run -------------------------------------------------------------------------------

  /** Holds even with stale reads: what is active, picked or being cancelled exists, was due when
      picked, was not immediate when its cancellation was checked. */
  ghost predicate Inv(s: Schedule) {
    && (s.active.Some? ==> s.active.value < |s.revisions| && s.revisions[s.active.value].effectiveAt <= s.clock)
    && (s.picked.Some? ==> s.picked.value < |s.revisions| && s.revisions[s.picked.value].effectiveAt <= s.clock)
    && (forall id :: id in s.cancelled ==> id < |s.revisions|)
    && (forall id :: id in s.checked ==> id < |s.revisions| && !s.revisions[id].immediate)
    && (forall now :: now in s.started ==> now <= s.clock)
    && (forall id :: 0 <= id < |s.revisions| && s.revisions[id].immediate ==> s.revisions[id].effectiveAt <= s.clock)
  }

  lemma SubmitKeeps(s: Schedule, mode: string, raw: EffectiveAt, now: int, skipped: set<nat>)
    requires Inv(s) && now <= s.clock
    ensures Inv(Submit(s, mode, raw, now, skipped))
  {
  }

  lemma StepKeeps(s: Schedule, step: Step)
    requires Inv(s)
    ensures Inv(Apply(s, step))
  {
    hide Submit, WinnerOf;
    match step
    case SubmitNow(mode, raw, skipped) => SubmitKeeps(s, mode, raw, s.clock, skipped);
    case SubmitWrite(now, mode, raw, skipped) =>
      if now in s.started {
        SubmitKeeps(s, mode, raw, now, skipped);
      }
    case CronNow => WinnerIsLatest(s, |s.revisions|);
    case CronRead => WinnerIsLatest(s, |s.revisions|);
    case _ =>
  }

  lemma {:induction false} RunKeeps(s: Schedule, steps: seq<Step>)
    requires Inv(s)
    ensures Inv(Run(s, steps))
  {
    if steps != [] {
      RunKeeps(s, steps[..|steps| - 1]);
      StepKeeps(Run(s, steps[..|steps| - 1]), steps[|steps| - 1]);
    }
  }

  /** In every reachable state the active revision is already effective. */
  lemma ActiveIsEffective(steps: seq<Step>)
    ensures var s := Run(START, steps);
            s.active.Some? ==> s.active.value < |s.revisions| && s.revisions[s.active.value].effectiveAt <= s.clock
  {
    RunKeeps(START, steps);
  }

  // --- Never cancelled while active ---------------------------------------------------------------

  ghost predicate ActiveUncancelled(s: Schedule) {
    s.active.Some? ==> s.active.value !in s.cancelled
  }

  /** A cancellation checked before the revision took effect, written once it is the active one. */
  ghost predicate StaleCancel(s: Schedule, step: Step) {
    step.CancelWrite? && step.id in s.checked && s.active == Some(step.id)
  }

  /** The active revision becomes a cancelled one exactly when a cancellation that was checked
      before the revision took effect is written after the revision was activated. */
  lemma CancelledOnlyByStaleWrite(s: Schedule, step: Step)
    requires Inv(s) && ActiveUncancelled(s)
    ensures !ActiveUncancelled(Apply(s, step)) <==> StaleCancel(s, step)
  {
    WinnerIsLatest(s, |s.revisions|);
  }

  /** Over every run: the active revision is never a cancelled one if and only if no step of the run
      is such a write. */
  lemma {:induction false} UncancelledUnlessStale(steps: seq<Step>)
    ensures (forall k :: 0 <= k <= |steps| ==> ActiveUncancelled(Run(START, steps[..k])))
            <==> forall k :: 0 <= k < |steps| ==> !StaleCancel(Run(START, steps[..k]), steps[k])
  {
    hide Run, StaleCancel, ActiveUncancelled, Apply;
    StartUncancelled();
    if steps == [] {
      assert steps[..0] == [];
    } else {
      var last := |steps| - 1;
      var front := steps[..last];
      UncancelledUnlessStale(front);
      assert forall k :: 0 <= k <= last ==> front[..k] == steps[..k];
      assert steps[..|steps|] == steps && front + [steps[last]] == steps;
      RunSnoc(START, front, steps[last]);
      StartInv();
      RunKeeps(START, front);
      if ActiveUncancelled(Run(START, front)) {
        CancelledOnlyByStaleWrite(Run(START, front), steps[last]);
      }
    }
  }

  lemma StartUncancelled()
    ensures ActiveUncancelled(Run(START, []))
  {
  }

  lemma StartInv()
    ensures Inv(START)
  {
  }

  /** That can happen: schedule, check the cancellation, let the revision become due and active. */
  lemma StaleCancelHappens()
    ensures exists steps :: !ActiveUncancelled(Run(START, steps))
  {
    hide Run;
    var xs := [SubmitNow("scheduled", At(40_000_000), {}), CancelRead(0), Tick(50_000_000)];
    StaleCancelSteps();
    var s3 := Run(START, xs);
    assert Winner(s3) == Some(0) by {
      assert WinnerOf(s3, 0) == None;
    }
    RunSnoc(START, xs, CronNow);
    RunSnoc(START, xs + [CronNow], CancelWrite(0));
  }

  lemma StaleCancelSteps()
    ensures Run(START, [SubmitNow("scheduled", At(40_000_000), {}), CancelRead(0), Tick(50_000_000)])
            == Schedule(50_000_000, [Revision(40_000_000, false)], {}, None, None, {0}, {})
  {
    hide Run;
    var schedule := SubmitNow("scheduled", At(40_000_000), {});
    EmptyRun(START);
    RunSnoc(START, [], schedule);
    RunSnoc(START, [schedule], CancelRead(0));
    RunSnoc(START, [schedule, CancelRead(0)], Tick(50_000_000));
    assert [] + [schedule] == [schedule] && [schedule] + [CancelRead(0)] == [schedule, CancelRead(0)];
    assert [schedule, CancelRead(0)] + [Tick(50_000_000)] == [schedule, CancelRead(0), Tick(50_000_000)];
  }

  // --- Never replaced by something older -------------------------------------------------------------

  /** An immediate publication, from a request that read the clock just now or some time ago. */
  predicate Publishes(s: Schedule, step: Step) {
    || (step.SubmitNow? && step.mode == "immediate")
    || (step.SubmitWrite? && step.mode == "immediate" && step.now in s.started)
  }

  function PublishTime(s: Schedule, step: Step): int
    requires Publishes(s, step)
  {
    if step.SubmitNow? then s.clock else step.now
  }

  predicate ActiveFrom(s: Schedule, p: nat) {
    s.active.Some? && s.active.value >= p
  }

  /** A publication that leaves a revision older than p, due to take effect after it, uncancelled. */
  ghost predicate LeavesBehind(s: Schedule, step: Step, p: nat) {
    && Publishes(s, step)
    && exists a: nat :: a < p && a < |s.revisions| && a !in s.cancelled && a in step.skipped
                        && s.revisions[a].effectiveAt > PublishTime(s, step)
  }

  /** The cron write that goes back to something published before p. */
  ghost predicate StaleActivation(s: Schedule, step: Step, p: nat) {
    step.CronWrite? && s.picked.Some? && s.picked.value < p && s.picked.value !in s.cancelled
  }

  /** Something older than p is due and comes after everything due from p on. */
  ghost predicate LeftoverWins(s: Schedule, p: nat) {
    exists a: nat :: a < p && Due(s, a) && forall b: nat :: p <= b && Due(s, b) ==> Before(s.revisions, b, a)
  }

  /** The steps that go back: a cron write picked earlier, or a cron run that finds a leftover. */
  ghost predicate GoesBack(s: Schedule, step: Step, p: nat) {
    StaleActivation(s, step, p) || (step.CronNow? && LeftoverWins(s, p))
  }

  lemma WinnerOlder(s: Schedule, p: nat)
    ensures LeftoverWins(s, p) <==> Winner(s).Some? && Winner(s).value < p
  {
    WinnerIsLatest(s, |s.revisions|);
    if LeftoverWins(s, p) {
      var a: nat :| a < p && Due(s, a) && forall b: nat :: p <= b && Due(s, b) ==> Before(s.revisions, b, a);
      assert a == Winner(s).value || Before(s.revisions, a, Winner(s).value);
    }
  }

  /** A step takes the activity back behind p exactly when it is one of those. */
  lemma GoesBackExactly(s: Schedule, step: Step, p: nat)
    requires p <= |s.revisions|
    ensures GoesBack(s, step, p) ==> !ActiveFrom(Apply(s, step), p)
    ensures ActiveFrom(s, p) && !GoesBack(s, step, p) ==> ActiveFrom(Apply(s, step), p)
    ensures p <= |Apply(s, step).revisions|
  {
    hide LeftoverWins;
    WinnerOlder(s, p);
    WinnerIsLatest(s, |s.revisions|);
  }

  lemma RunSnoc(s: Schedule, steps: seq<Step>, step: Step)
    ensures Run(s, steps + [step]) == Apply(Run(s, steps), step)
  {
    assert (steps + [step])[..|steps|] == steps;
  }

  lemma EmptyRun(s: Schedule)
    ensures Run(s, []) == s
  {
  }

  ghost predicate NeverBack(s: Schedule, steps: seq<Step>, p: nat) {
    forall k :: 0 <= k < |steps| ==> !GoesBack(Run(s, steps[..k]), steps[k], p)
  }

  lemma {:induction false} RunStays(s: Schedule, steps: seq<Step>, p: nat)
    requires p <= |s.revisions| && ActiveFrom(s, p)
    ensures p <= |Run(s, steps).revisions|
    ensures NeverBack(s, steps, p) ==> ActiveFrom(Run(s, steps), p)
  {
    hide Apply, GoesBack;
    if steps != [] {
      var last := |steps| - 1;
      var front := steps[..last];
      assert forall k :: 0 <= k < last ==> front[..k] == steps[..k];
      RunStays(s, front, p);
      GoesBackExactly(Run(s, front), steps[last], p);
    }
  }

  lemma PublicationStarts(s: Schedule, publish: Step)
    requires Inv(s) && Publishes(s, publish)
    ensures ActiveFrom(Apply(s, publish), |s.revisions|) && |Apply(s, publish).revisions| == |s.revisions| + 1
    ensures Inv(Apply(s, publish))
  {
    StepKeeps(s, publish);
  }

  /** Over every run, however reads and writes are pulled apart and whichever cancellations a
      publication failed to store: after an immediate publication, no revision that existed before it
      is active again at any time if and only if no cron write goes back to a winner picked earlier
      and no cron run finds a leftover that comes after everything published since. */
  lemma PublishedStays(before: seq<Step>, publish: Step, rest: seq<Step>)
    requires Publishes(Run(START, before), publish)
    ensures var p := |Run(START, before).revisions|;
            var s := Apply(Run(START, before), publish);
            (forall k :: 0 <= k <= |rest| ==> ActiveFrom(Run(s, rest[..k]), p)) <==> NeverBack(s, rest, p)
  {
    hide Apply, Inv, Run, GoesBack;
    var s0 := Run(START, before);
    var p := |s0.revisions|;
    var s := Apply(s0, publish);
    StartInv();
    RunKeeps(START, before);
    PublicationStarts(s0, publish);
    if NeverBack(s, rest, p) {
      forall k | 0 <= k <= |rest| ensures ActiveFrom(Run(s, rest[..k]), p) {
        assert forall j :: 0 <= j < k ==> rest[..k][..j] == rest[..j];
        RunStays(s, rest[..k], p);
      }
    } else {
      var k :| 0 <= k < |rest| && GoesBack(Run(s, rest[..k]), rest[k], p);
      RunStays(s, rest[..k], p);
      GoesBackExactly(Run(s, rest[..k]), rest[k], p);
      assert rest[..k + 1] == rest[..k] + [rest[k]];
      RunSnoc(s, rest[..k], rest[k]);
    }
  }

  // --- What complete publications give ---------------------------------------------------------------

  /** From an immediate publication p on, some publication f from p onwards is due, cannot be
      cancelled, and comes after every uncancelled revision older than p. */
  ghost predicate Shielded(s: Schedule, p: nat, f: nat) {
    && p <= f < |s.revisions| && s.revisions[f].immediate && f !in s.cancelled
    && (forall a: nat :: a < p && a !in s.cancelled ==> Before(s.revisions, a, f))
    && ActiveFrom(s, p)
  }

  /** A publication shields unless it leaves something behind; even one with an older clock reading
      cancels whatever would come after it. */
  lemma PublicationShields(s: Schedule, publish: Step, p: nat)
    requires Inv(s) && Publishes(s, publish) && p <= |s.revisions| && !LeavesBehind(s, publish, p)
    ensures Shielded(Apply(s, publish), p, |s.revisions|)
  {
    forall a: nat | a < p && a !in Apply(s, publish).cancelled
      ensures s.revisions[a].effectiveAt <= PublishTime(s, publish)
    {
    }
  }

  /** A later publication takes over the shield; nothing else can remove it. */
  lemma ShieldStep(s: Schedule, step: Step, p: nat, f: nat) returns (f': nat)
    requires Inv(s) && Shielded(s, p, f) && !StaleActivation(s, step, p) && !LeavesBehind(s, step, p)
    ensures Shielded(Apply(s, step), p, f')
  {
    hide LeavesBehind;
    f' := f;
    if Publishes(s, step) {
      f' := |s.revisions|;
      PublicationShields(s, step, p);
    } else if step.CronNow? {
      WinnerIsLatest(s, |s.revisions|);
      CronStaysAhead(s, p, f);
    }
  }

  lemma CronStaysAhead(s: Schedule, p: nat, f: nat)
    requires Inv(s) && Shielded(s, p, f)
    ensures Winner(s).Some? && Winner(s).value >= p
  {
    WinnerIsLatest(s, |s.revisions|);
    assert Due(s, f);
  }

  /** Behind the shield, a step makes a revision older than p active exactly when it is a cron write
      whose winner was picked before and is not cancelled. */
  lemma OlderReplacesOnlyByStaleCron(s: Schedule, step: Step, p: nat, f: nat)
    requires Inv(s) && Shielded(s, p, f)
    ensures (Apply(s, step).active.Some? && Apply(s, step).active.value < p) <==> StaleActivation(s, step, p)
  {
    CronStaysAhead(s, p, f);
    WinnerOlder(s, p);
    GoesBackExactly(s, step, p);
    hide Submit, WinnerOf;
  }

  lemma StaleCronStates(s: Schedule, raw: EffectiveAt, skipped: set<nat>)
    requires Winner(s).Some? && Due(s, Winner(s).value)
    ensures var s1 := Apply(s, CronRead);
            var s2 := Apply(s1, SubmitNow("immediate", raw, skipped));
            && s2.active == Some(|s.revisions|)
            && Apply(s2, CronWrite).active == Winner(s)
  {
    hide WinnerOf;
  }

  /** And it happens from every state with a due revision: the cron picks it, somebody publishes,
      the cron writes, and the new publication is gone again. */
  lemma StaleCronReplaces(s: Schedule, raw: EffectiveAt, skipped: set<nat>)
    requires Inv(s) && Winner(s).Some?
    ensures var publish := SubmitNow("immediate", raw, skipped);
            && Run(s, [CronRead, publish]).active == Some(|s.revisions|)
            && Run(s, [CronRead, publish, CronWrite]).active == Winner(s)
  {
    hide Run, WinnerOf, Apply;
    var publish := SubmitNow("immediate", raw, skipped);
    WinnerIsLatest(s, |s.revisions|);
    StaleCronStates(s, raw, skipped);
    EmptyRun(s);
    RunSnoc(s, [], CronRead);
    RunSnoc(s, [CronRead], publish);
    RunSnoc(s, [CronRead, publish], CronWrite);
    assert [] + [CronRead] == [CronRead] && [CronRead] + [publish] == [CronRead, publish];
    assert [CronRead, publish] + [CronWrite] == [CronRead, publish, CronWrite];
  }

  /** No step of the run is such a write. */
  ghost predicate NeverStale(s: Schedule, steps: seq<Step>, p: nat) {
    forall k :: 0 <= k < |steps| ==> !StaleActivation(Run(s, steps[..k]), steps[k], p)
  }

  /** No publication of the run leaves anything older than p behind. */
  ghost predicate NothingLeft(s: Schedule, steps: seq<Step>, p: nat) {
    forall k :: 0 <= k < |steps| ==> !LeavesBehind(Run(s, steps[..k]), steps[k], p)
  }

  lemma {:induction false} ShieldRun(s: Schedule, steps: seq<Step>, p: nat, f: nat) returns (f': nat)
    requires Inv(s) && Shielded(s, p, f) && NeverStale(s, steps, p) && NothingLeft(s, steps, p)
    ensures Shielded(Run(s, steps), p, f')
  {
    hide Inv, Shielded, Apply, StaleActivation, LeavesBehind;
    f' := f;
    if steps != [] {
      var last := |steps| - 1;
      var front := steps[..last];
      assert forall k :: 0 <= k < last ==> front[..k] == steps[..k];
      f' := ShieldRun(s, front, p, f);
      RunKeeps(s, front);
      f' := ShieldStep(Run(s, front), steps[last], p, f');
    }
  }

  lemma ShieldActive(s: Schedule, p: nat, f: nat)
    requires Shielded(s, p, f)
    ensures ActiveFrom(s, p)
  {
  }

  /** While publications leave nothing behind, only the stale cron write is to blame: over every such
      run nothing older is active again at any time if and only if no such write occurs. */
  lemma CompleteStaysUnlessStale(before: seq<Step>, publish: Step, rest: seq<Step>)
    requires Publishes(Run(START, before), publish)
    requires var p := |Run(START, before).revisions|;
             && !LeavesBehind(Run(START, before), publish, p)
             && NothingLeft(Apply(Run(START, before), publish), rest, p)
    ensures var p := |Run(START, before).revisions|;
            var s := Apply(Run(START, before), publish);
            (forall k :: 0 <= k <= |rest| ==> ActiveFrom(Run(s, rest[..k]), p)) <==> NeverStale(s, rest, p)
  {
    hide Apply, Inv, Run, StaleActivation, LeavesBehind, Shielded, ActiveFrom, LeftoverWins;
    var s0 := Run(START, before);
    var p := |s0.revisions|;
    var s := Apply(s0, publish);
    StartInv();
    RunKeeps(START, before);
    PublicationStarts(s0, publish);
    PublicationShields(s0, publish, p);
    if NeverStale(s, rest, p) {
      forall k | 0 <= k <= |rest| ensures ActiveFrom(Run(s, rest[..k]), p) {
        assert forall j :: 0 <= j < k ==> rest[..k][..j] == rest[..j];
        var f := ShieldRun(s, rest[..k], p, p);
        ShieldActive(Run(s, rest[..k]), p, f);
      }
    } else {
      PublishedStays(before, publish, rest);
      var k :| 0 <= k < |rest| && StaleActivation(Run(s, rest[..k]), rest[k], p);
      assert GoesBack(Run(s, rest[..k]), rest[k], p);
    }
  }

  /** A publication that leaves something behind is replaced as soon as that is due and the cron runs. */
  lemma LeftoverReturns(s: Schedule, publish: Step) returns (wait: nat)
    requires Inv(s) && LeavesBehind(s, publish, |s.revisions|)
    ensures !ActiveFrom(Apply(Apply(Apply(s, publish), Tick(wait)), CronNow), |s.revisions|)
  {
    var p := |s.revisions|;
    var at := PublishTime(s, publish);
    var a: nat :| a < p && a !in s.cancelled && a in publish.skipped && s.revisions[a].effectiveAt > at;
    wait := if s.revisions[a].effectiveAt > s.clock then s.revisions[a].effectiveAt - s.clock else 0;
    var s2 := Apply(Apply(s, publish), Tick(wait));
    assert s2.revisions == s.revisions + [Revision(at, true)];
    assert Due(s2, a);
    assert LeftoverWins(s2, p);
    GoesBackExactly(s2, CronNow, p);
  }

  /** Steps whose read and write are not pulled apart. */
  predicate Undivided(steps: seq<Step>) {
    forall i :: 0 <= i < |steps| ==>
      steps[i].Tick? || steps[i].SubmitNow? || steps[i].CancelNow? || steps[i].CronNow?
  }

  /** While every read is followed at once by its write and later publications are complete, the
      publication stays whatever follows if and only if it left nothing behind itself. */
  lemma UndividedIsSafe(before: seq<Step>, publish: Step)
    requires Publishes(Run(START, before), publish)
    ensures var p := |Run(START, before).revisions|;
            var s := Apply(Run(START, before), publish);
            (forall rest :: Undivided(rest) && NothingLeft(s, rest, p) ==> ActiveFrom(Run(s, rest), p))
            <==> !LeavesBehind(Run(START, before), publish, p)
  {
    hide Run, Apply, LeavesBehind, Inv;
    var s0 := Run(START, before);
    var p := |s0.revisions|;
    var s := Apply(s0, publish);
    StartInv();
    RunKeeps(START, before);
    if LeavesBehind(s0, publish, p) {
      var wait := LeftoverReturns(s0, publish);
      var rest := [Tick(wait), CronNow];
      EmptyRun(s);
      RunSnoc(s, [], Tick(wait));
      RunSnoc(s, [Tick(wait)], CronNow);
      assert [] + [Tick(wait)] == [Tick(wait)] && [Tick(wait)] + [CronNow] == rest;
      NoPublication(s, rest, p);
      assert Undivided(rest);
    } else {
      forall rest | Undivided(rest) && NothingLeft(s, rest, p) ensures ActiveFrom(Run(s, rest), p) {
        CompleteStaysUnlessStale(before, publish, rest);
        assert NeverStale(s, rest, p);
        assert rest[..|rest|] == rest;
      }
    }
  }

  lemma NoPublication(s: Schedule, steps: seq<Step>, p: nat)
    requires forall k :: 0 <= k < |steps| ==> steps[k].Tick? || steps[k].CronNow?
    ensures NothingLeft(s, steps, p)
  {
  }

  /** Nor is the active revision ever a cancelled one then. */
  lemma UndividedUncancelled(steps: seq<Step>)
    requires Undivided(steps)
    ensures ActiveUncancelled(Run(START, steps))
  {
    hide Run;
    UncancelledUnlessStale(steps);
    assert forall k :: 0 <= k < |steps| ==> !StaleCancel(Run(START, steps[..k]), steps[k]);
    assert steps[..|steps|] == steps;
  }

  // --- The handlers ---------------------------------------------------------------------------------

  class RuleStore {
    var revisions: seq<Revision>
    var cancelled: set<nat>
    var active: Option<nat>

    function State(clock: int): Schedule
      reads this
    {
      Schedule(clock, revisions, cancelled, active, None, {}, {})
    }

    constructor ()
      ensures State(0) == START
    {
      revisions, cancelled, active := [], {}, None;
    }

    /** Insert the revision; an immediate one cancels every revision that would take effect after
        it, one by one, and becomes the active one, even if the scan or some of the inserts fail. */
    method PersistUpdate(mode: string, raw: EffectiveAt, now: int, clock: int, scanFails: bool, failed: set<nat>)
      returns (id: Option<nat>)
      modifies this
      ensures var skipped := if scanFails then Later(old(revisions), now) else failed;
              State(clock) == Submit(old(State(clock)), mode, raw, now, skipped)
      ensures id == if ParseEffectiveAt(mode, raw, now).None? then None else Some(|old(revisions)|)
    {
      var parsed := ParseEffectiveAt(mode, raw, now);
      if parsed.None? {
        return None;
      }
      var (at, activateNow) := parsed.value;
      var newId := |revisions|;
      revisions := revisions + [Revision(at, activateNow)];
      if !activateNow {
        return Some(newId);
      }
      if !scanFails {
        for i := 0 to newId
          invariant revisions == old(revisions) + [Revision(at, activateNow)] && active == old(active)
          invariant cancelled == old(cancelled)
                                 + set k: nat | k < i && old(revisions)[k].effectiveAt > at && k !in failed
        {
          if revisions[i].effectiveAt > at && i !in cancelled && i !in failed {
            cancelled := cancelled + {i};
          }
        }
      }
      active := Some(newId);
      return Some(newId);
    }

    /** The cancellation handler without interference. */
    method CancelRevision(id: nat, clock: int) returns (ok: bool)
      modifies `cancelled
      ensures ok == Cancellable(old(State(clock)), id)
      ensures State(clock) == Apply(old(State(clock)), CancelNow(id))
    {
      if id >= |revisions| {
        return false;
      }
      if revisions[id].effectiveAt <= clock {
        return false;
      }
      cancelled := cancelled + {id};
      return true;
    }

    /** The cron without interference: scan for the latest due revision, then apply it. */
    method ActivateDue(clock: int)
      modifies `active
      ensures State(clock) == Apply(old(State(clock)), CronNow)
    {
      var best: Option<nat> := None;
      for i := 0 to |revisions|
        invariant best == WinnerOf(State(clock), i)
      {
        if revisions[i].effectiveAt <= clock && i !in cancelled {
          if best.None? || revisions[best.value].effectiveAt <= revisions[i].effectiveAt {
            best := Some(i);
          }
        }
      }
      if best.Some? && best.value !in cancelled {
        active := best;
      }
    }
  }
}
