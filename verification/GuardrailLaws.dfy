/**
 What callers of the guardrail engine rely on, stated on the history of operations: a triggered kill switch halts
 until it is reset, the breaker is open exactly after a long enough streak of failures, and the daily total is what
 was spent today.
 */
module GuardrailLaws {
  import opened Basics
  import opened GuardrailModel
  import opened GuardrailRuns

  // ---- Which configurations a check consults ----

  /** The input names the scope of this configuration; the default global one is always named. */
  predicate Names(input: CheckInput, id: ConfigId) {
    match id.scopeType
    case Global => id.scopeId == "default"
    case Venue => id.scopeId != "" && input.venueId == Some(id.scopeId)
    case Sleeve => id.scopeId != "" && input.sleeveId == Some(id.scopeId)
    case Strategy => id.scopeId != "" && input.strategyId == Some(id.scopeId)
  }

  lemma ConsultedIff(ids: set<ConfigId>, input: CheckInput, id: ConfigId)
    requires OnePerScope(ids)
    ensures id in Applicable(ids, input) <==> id in ids && Names(input, id)
  {
    if id in ids {
      assert IdFor(ids, id.scopeType, id.scopeId) == Some(id);
    }
  }

  /** The verdict of a check of the whole engine. */
  ghost function VerdictOf(cs: Configs, input: CheckInput, now: int, offset: int): CheckResult {
    ApplicableIds(cs.Keys, input);
    CheckAll(cs, Applicable(cs.Keys, input), input, now, offset).1
  }

  lemma StepAnswersVerdict(cs: Configs, input: CheckInput, now: int, offset: int)
    ensures Step(cs, Check(input, now), offset).1 == Verdict(VerdictOf(cs, input, now, offset))
  {
    hide CheckAll, Applicable;
  }

  /** A check reports exactly what the named configurations report. */
  lemma VerdictParts(cs: Configs, input: CheckInput, now: int, offset: int)
    requires OnePerScope(cs.Keys)
    ensures forall v :: v in VerdictOf(cs, input, now, offset).violations <==>
      exists id :: Names(input, id) && ReportedBy(cs, id, v, input, now, offset)
  {
    ApplicableIds(cs.Keys, input);
    CheckAllParts(cs, Applicable(cs.Keys, input), input, now, offset);
    forall id
      ensures id in Applicable(cs.Keys, input) <==> id in cs && Names(input, id)
    {
      ConsultedIff(cs.Keys, input, id);
    }
    hide Applicable, CheckAll, CheckOne, Names;
  }

  lemma StepKeepsOnePerScope(cs: Configs, e: Event, offset: int)
    requires OnePerScope(cs.Keys)
    ensures OnePerScope(Step(cs, e, offset).0.Keys)
  {
    hide CheckAll, Applicable, RecordFailureOne, RecordSuccessOne;
  }

  lemma {:induction false} RunKeepsOnePerScope(cs: Configs, es: seq<Event>, offset: int)
    requires OnePerScope(cs.Keys)
    ensures OnePerScope(StateAfter(cs, es, offset).Keys)
    decreases |es|
  {
    hide Step, OnePerScope;
    if es != [] {
      StepKeepsOnePerScope(cs, es[0], offset);
      RunKeepsOnePerScope(Step(cs, es[0], offset).0, es[1..], offset);
    }
  }

  /** What a check does to one configuration, whether it is consulted or not. */
  lemma CheckTouches(cs: Configs, id: ConfigId, input: CheckInput, now: int, offset: int)
    requires id in cs
    ensures var after := Step(cs, Check(input, now), offset).0;
      && id in after
      && (after[id] == cs[id] || (Reachable(id) && after[id] == CheckOne(cs[id], input, now, offset).0))
  {
    ApplicableIds(cs.Keys, input);
    CheckAllParts(cs, Applicable(cs.Keys, input), input, now, offset);
    hide CheckOne, CheckAll, Applicable;
  }

  predicate Recreates(e: Event, id: ConfigId) {
    e.CreateConfig? && e.scopeType == id.scopeType && e.scopeId == id.scopeId
  }

  lemma CheckOneKeeps(c: Config, input: CheckInput, now: int, offset: int)
    ensures CheckOne(c, input, now, offset).0.settings == c.settings
    ensures CheckOne(c, input, now, offset).0.kill == c.kill
  {
  }

  // ---- The kill switch ----

  predicate LeavesSwitch(e: Event, id: ConfigId) {
    && !(e.TriggerKillSwitch? && e.id == id)
    && !(e.ResetKillSwitch? && e.id == id)
    && !Recreates(e, id)
  }

  lemma StepLeavesSwitch(cs: Configs, id: ConfigId, e: Event, offset: int)
    requires id in cs && LeavesSwitch(e, id)
    ensures var after := Step(cs, e, offset).0;
      id in after && after[id].kill == cs[id].kill && after[id].settings == cs[id].settings
  {
    if e.Check? {
      CheckTouches(cs, id, e.input, e.now, offset);
      CheckOneKeeps(cs[id], e.input, e.now, offset);
      hide Step, CheckOne;
    } else {
      hide CheckAll, Applicable;
    }
  }

  lemma {:induction false} SwitchStays(cs: Configs, id: ConfigId, es: seq<Event>, offset: int)
    requires id in cs && forall i :: 0 <= i < |es| ==> LeavesSwitch(es[i], id)
    ensures var after := StateAfter(cs, es, offset);
      id in after && after[id].kill == cs[id].kill && after[id].settings == cs[id].settings
    decreases |es|
  {
    hide Step, LeavesSwitch;
    if es != [] {
      assert LeavesSwitch(es[0], id);
      StepLeavesSwitch(cs, id, es[0], offset);
      assert forall i :: 0 <= i < |es| - 1 ==> es[1..][i] == es[i + 1];
      SwitchStays(Step(cs, es[0], offset).0, id, es[1..], offset);
    }
  }

  /** The halt a check reports when the switch was triggered at `now` by `who` for `reason`. */
  predicate ReportsHalt(v: Violation, now: int, who: string, reason: string) {
    && v.KillSwitchActive? && v.kill.triggered
    && v.kill.triggeredAt == Some(now) && v.kill.triggeredBy == Some(who) && v.kill.reason == Some(reason)
  }

  /**
   After a trigger every check that names the configuration is refused, with the time, operator and reason of the
   trigger, whatever happens in between, until the switch is reset or triggered again or the scope is created anew.
   */
  lemma TriggerHalts(cs: Configs, id: ConfigId, who: string, reason: string, now: int, es: seq<Event>,
                     input: CheckInput, later: int, offset: int)
    requires OnePerScope(cs.Keys) && id in cs && cs[id].settings.killSwitchEnabled
    requires (forall i :: 0 <= i < |es| ==> LeavesSwitch(es[i], id)) && Names(input, id)
    ensures Step(cs, TriggerKillSwitch(id, who, reason, now), offset).1 == KillSwitchChanged(true)
    ensures var state := StateAfter(Step(cs, TriggerKillSwitch(id, who, reason, now), offset).0, es, offset);
      var verdict := VerdictOf(state, input, later, offset);
      !verdict.Allowed() && exists v :: v in verdict.violations && ReportsHalt(v, now, who, reason)
  {
    var triggered := Step(cs, TriggerKillSwitch(id, who, reason, now), offset).0;
    assert triggered[id].kill.triggered && triggered[id].kill.triggeredAt == Some(now)
        && triggered[id].kill.triggeredBy == Some(who) && triggered[id].kill.reason == Some(reason);
    assert triggered[id].settings == cs[id].settings && triggered.Keys == cs.Keys;
    SwitchStays(triggered, id, es, offset);
    RunKeepsOnePerScope(triggered, es, offset);
    var state := StateAfter(triggered, es, offset);
    HaltIsReported(state, id, input, later, offset);
    hide Step, StateAfter, CheckOne;
    VerdictParts(state, input, later, offset);
    assert KillSwitchActive(state[id].kill) in VerdictOf(state, input, later, offset).violations;
    assert ReportsHalt(KillSwitchActive(state[id].kill), now, who, reason);
  }

  lemma HaltIsReported(cs: Configs, id: ConfigId, input: CheckInput, now: int, offset: int)
    requires id in cs && cs[id].settings.killSwitchEnabled && cs[id].kill.triggered
    ensures ReportedBy(cs, id, KillSwitchActive(cs[id].kill), input, now, offset)
  {
    assert [KillSwitchActive(cs[id].kill)][0] == KillSwitchActive(cs[id].kill);
  }

  /** Only a triggered configuration reports a halt. */
  lemma HaltMeansTriggered(c: Config, v: Violation, input: CheckInput, now: int, offset: int)
    requires v in CheckOne(c, input, now, offset).1.violations && v.KillSwitchActive?
    ensures c.settings.killSwitchEnabled && c.kill.triggered && v.kill == c.kill
  {
  }

  /** After a reset the configuration reports no halt any more, under the same conditions. */
  lemma ResetLiftsHalt(cs: Configs, id: ConfigId, now: int, es: seq<Event>, input: CheckInput, later: int, offset: int)
    requires OnePerScope(cs.Keys) && id in cs && forall i :: 0 <= i < |es| ==> LeavesSwitch(es[i], id)
    ensures Step(cs, ResetKillSwitch(id, now), offset).1 == KillSwitchChanged(true)
    ensures var state := StateAfter(Step(cs, ResetKillSwitch(id, now), offset).0, es, offset);
      forall v :: v in VerdictOf(state, input, later, offset).violations && v.KillSwitchActive? ==>
        exists other :: other != id && other in state && Names(input, other) && state[other].kill.triggered
  {
    var lifted := Step(cs, ResetKillSwitch(id, now), offset).0;
    assert !lifted[id].kill.triggered && lifted.Keys == cs.Keys;
    SwitchStays(lifted, id, es, offset);
    RunKeepsOnePerScope(lifted, es, offset);
    var state := StateAfter(lifted, es, offset);
    hide Step, StateAfter, CheckOne, Names;
    VerdictParts(state, input, later, offset);
    forall v | v in VerdictOf(state, input, later, offset).violations && v.KillSwitchActive?
      ensures exists other :: other != id && other in state && Names(input, other) && state[other].kill.triggered
    {
      var other :| Names(input, other) && ReportedBy(state, other, v, input, later, offset);
      HaltMeansTriggered(state[other], v, input, later, offset);
    }
  }

  // ---- The circuit breaker ----

  /**
   The latest failures of a configuration: none older than its last success, each at most `minutes` before the next,
   and the last at most `minutes` before `now`.
   */
  function Streak(es: seq<Event>, id: ConfigId, minutes: real, now: int): nat
    decreases |es|
  {
    if es == [] then 0
    else
      var front, e := es[..|es| - 1], es[|es| - 1];
      if e.RecordFailure? && e.id == id then
        if (now - e.now) as real > minutes * 60000.0 then 0 else 1 + Streak(front, id, minutes, e.now)
      else if e.RecordSuccess? && e.id == id then 0
      else Streak(front, id, minutes, now)
  }

  function LatestFailure(es: seq<Event>, id: ConfigId): Option<int> {
    if es == [] then None
    else
      var e := es[|es| - 1];
      if e.RecordFailure? && e.id == id then Some(e.now) else LatestFailure(es[..|es| - 1], id)
  }

  /** The configuration counts the streak, as an eager observer at `now` sees it. */
  ghost predicate Counts(c: Config, settings: Settings, es: seq<Event>, id: ConfigId, now: int, offset: int) {
    && c.settings == settings
    && View(c, now, offset).failureCount == Streak(es, id, settings.circuitBreakerResetMinutes, now)
    && (Streak(es, id, settings.circuitBreakerResetMinutes, now) > 0 ==>
          View(c, now, offset).lastFailureAt == LatestFailure(es, id))
  }

  lemma ViewsCountAlike(a: Config, b: Config, settings: Settings, es: seq<Event>, longer: seq<Event>, id: ConfigId, now: int, offset: int)
    requires Counts(a, settings, es, id, now, offset)
    requires a.settings == b.settings
    requires View(a, now, offset).failureCount == View(b, now, offset).failureCount
    requires View(a, now, offset).lastFailureAt == View(b, now, offset).lastFailureAt
    requires Streak(longer, id, settings.circuitBreakerResetMinutes, now) == Streak(es, id, settings.circuitBreakerResetMinutes, now)
    requires LatestFailure(longer, id) == LatestFailure(es, id)
    ensures Counts(b, settings, longer, id, now, offset)
  {
    hide View, Streak, LatestFailure;
  }

  /** An event that is neither a failure nor a success of this configuration leaves the streak alone. */
  lemma OtherEventsKeepStreak(front: seq<Event>, e: Event, id: ConfigId, minutes: real, now: int)
    requires !(e.RecordFailure? && e.id == id) && !(e.RecordSuccess? && e.id == id)
    ensures Streak(front + [e], id, minutes, now) == Streak(front, id, minutes, now)
    ensures LatestFailure(front + [e], id) == LatestFailure(front, id)
  {
    assert (front + [e])[..|front|] == front;
  }

  lemma FailureExtendsStreak(c: Config, settings: Settings, front: seq<Event>, id: ConfigId, t: int, now: int, offset: int)
    requires Counts(c, settings, front, id, t, offset) && t <= now
    ensures Counts(RecordFailureOne(c, t), settings, front + [RecordFailure(id, t)], id, now, offset)
  {
    var es := front + [RecordFailure(id, t)];
    assert es[..|front|] == front;
    FailureRefines(c, t, offset);
    ViewLater(RecordFailureOne(c, t), t, now, offset);
    OperationsKeepSettings(c, 0.0, t, offset);
    hide View, RecordFailureOne;
  }

  lemma SuccessEndsStreak(c: Config, settings: Settings, front: seq<Event>, id: ConfigId, notional: real, t: int, now: int, offset: int)
    requires Counts(c, settings, front, id, t, offset) && t <= now
    ensures Counts(RecordSuccessOne(c, notional, t, offset), settings, front + [RecordSuccess(id, notional, t)], id, now, offset)
  {
    SuccessRefines(c, notional, t, offset);
    ViewLater(RecordSuccessOne(c, notional, t, offset), t, now, offset);
    OperationsKeepSettings(c, notional, t, offset);
    hide View, RecordSuccessOne;
  }

  lemma CheckKeepsCount(c: Config, input: CheckInput, t: int, now: int, offset: int)
    requires Sound(c.settings) && t <= now
    ensures View(CheckOne(c, input, t, offset).0, now, offset) == View(c, now, offset)
    ensures CheckOne(c, input, t, offset).0.settings == c.settings
  {
    CheckRefines(c, input, t, offset);
    CheckOneKeeps(c, input, t, offset);
    ViewLater(c, t, now, offset);
    ViewLater(CheckOne(c, input, t, offset).0, t, now, offset);
    hide View, CheckOne;
  }

  lemma SwitchKeepsCount(c: Config, kill: KillSwitch, now: int, offset: int)
    ensures View(c.(kill := kill), now, offset).failureCount == View(c, now, offset).failureCount
    ensures View(c.(kill := kill), now, offset).lastFailureAt == View(c, now, offset).lastFailureAt
  {
  }

  ghost predicate NeverRecreated(es: seq<Event>, id: ConfigId) {
    forall i :: 0 <= i < |es| ==> !Recreates(es[i], id)
  }

  ghost predicate Before(es: seq<Event>, now: int) {
    ClockMonotone(es) && (es != [] ==> es[|es| - 1].now <= now)
  }

  lemma BeforeLast(es: seq<Event>, id: ConfigId, now: int)
    requires es != [] && NeverRecreated(es, id) && Before(es, now)
    ensures var front, e := es[..|es| - 1], es[|es| - 1];
      && e.now <= now && !Recreates(e, id) && NeverRecreated(front, id)
      && Before(front, e.now) && Before(front, now)
      && (if front == [] then e.now else front[0].now) == es[0].now
  {
    hide Recreates;
  }

  /** One operation of a run, seen from one configuration with an enabled breaker. */
  lemma CountStep(cs: Configs, settings: Settings, front: seq<Event>, e: Event, id: ConfigId, now: int, offset: int)
    requires id in cs && settings.circuitBreakerEnabled && Sound(settings) && e.now <= now && !Recreates(e, id)
    requires Counts(cs[id], settings, front, id, e.now, offset)
    requires Counts(cs[id], settings, front, id, now, offset)
    ensures var after := Step(cs, e, offset).0;
      id in after && Counts(after[id], settings, front + [e], id, now, offset)
  {
    var after := Step(cs, e, offset).0;
    var c := cs[id];
    if e.RecordFailure? && e.id == id {
      FailureExtendsStreak(c, settings, front, id, e.now, now, offset);
    } else if e.RecordSuccess? && e.id == id {
      SuccessEndsStreak(c, settings, front, id, e.notionalUsd, e.now, now, offset);
    } else {
      OtherEventsKeepStreak(front, e, id, settings.circuitBreakerResetMinutes, now);
      if e.Check? {
        CheckTouches(cs, id, e.input, e.now, offset);
        CheckKeepsCount(c, e.input, e.now, now, offset);
      } else {
        UntouchedBy(cs, id, e, offset);
        SwitchKeepsCount(c, after[id].kill, now, offset);
      }
      hide Step, View, Counts, CheckOne;
      ViewsCountAlike(c, after[id], settings, front, front + [e], id, now, offset);
    }
  }

  /** Operations on other configurations, and on the switch, leave everything but the switch as it was. */
  lemma UntouchedBy(cs: Configs, id: ConfigId, e: Event, offset: int)
    requires id in cs && !e.Check? && !Recreates(e, id)
    requires !(e.RecordFailure? && e.id == id) && !(e.RecordSuccess? && e.id == id)
    ensures var after := Step(cs, e, offset).0; id in after && after[id] == cs[id].(kill := after[id].kill)
  {
  }

  /** The failures counted for a configuration are exactly its streak, through any run of operations. */
  lemma {:induction false} FailuresAreStreak(cs: Configs, id: ConfigId, es: seq<Event>, now: int, offset: int)
    requires id in cs && cs[id].settings.circuitBreakerEnabled && Sound(cs[id].settings)
    requires cs[id].failureCount == 0 && cs[id].lastFailureAt == None
    requires NeverRecreated(es, id) && Before(es, now)
    ensures var state := StateAfter(cs, es, offset);
      id in state && Counts(state[id], cs[id].settings, es, id, now, offset)
    decreases |es|
  {
    if es == [] {
    } else {
      var front, e := es[..|es| - 1], es[|es| - 1];
      assert es == front + [e];
      StateAfterAppend(cs, front, e, offset);
      BeforeLast(es, id, now);
      hide Step, View, Counts, StateAfter, Before, NeverRecreated, Recreates;
      FailuresAreStreak(cs, id, front, e.now, offset);
      FailuresAreStreak(cs, id, front, now, offset);
      CountStep(StateAfter(cs, front, offset), cs[id].settings, front, e, id, now, offset);
    }
  }

  /**
   So, unless it is halted, a configuration reports an open breaker exactly when its streak has reached the threshold,
   with the length of the streak and the moment at which the window of the latest failure ends.
   */
  lemma BreakerOpensIff(cs: Configs, id: ConfigId, es: seq<Event>, input: CheckInput, now: int, offset: int)
    requires id in cs && cs[id].settings.circuitBreakerEnabled && Sound(cs[id].settings)
    requires cs[id].failureCount == 0 && cs[id].lastFailureAt == None
    requires NeverRecreated(es, id) && Before(es, now)
    ensures id in StateAfter(cs, es, offset)
    ensures var c := StateAfter(cs, es, offset)[id];
      var minutes := c.settings.circuitBreakerResetMinutes;
      var streak, latest := Streak(es, id, minutes, now), LatestFailure(es, id);
      var result := CheckOne(c, input, now, offset).1;
      !Halted(c) ==>
        if streak < c.settings.maxFailuresBeforeBreaker then
          forall v :: v in result.violations ==> !v.CircuitBreakerOpen?
        else
          && latest.Some?
          && result == CheckResult([CircuitBreakerOpen(streak, Some(latest.value as real + minutes * 60000.0))], [])
  {
    FailuresAreStreak(cs, id, es, now, offset);
    hide StateAfter, Counts, Streak, LatestFailure, CheckOne;
    BreakerOfCounting(StateAfter(cs, es, offset)[id], es, id, input, now, offset);
  }

  lemma BreakerOfCounting(c: Config, es: seq<Event>, id: ConfigId, input: CheckInput, now: int, offset: int)
    requires c.settings.circuitBreakerEnabled && Sound(c.settings) && Counts(c, c.settings, es, id, now, offset)
    ensures var minutes := c.settings.circuitBreakerResetMinutes;
      var streak, latest := Streak(es, id, minutes, now), LatestFailure(es, id);
      var result := CheckOne(c, input, now, offset).1;
      !Halted(c) ==>
        if streak < c.settings.maxFailuresBeforeBreaker then
          forall v :: v in result.violations ==> !v.CircuitBreakerOpen?
        else
          && latest.Some?
          && result == CheckResult([CircuitBreakerOpen(streak, Some(latest.value as real + minutes * 60000.0))], [])
  {
    StreakHasLatest(es, id, c.settings.circuitBreakerResetMinutes, now);
    CheckRefines(c, input, now, offset);
    ViewKeeps(c, now, offset);
    hide View, CheckOne, Streak, LatestFailure, EagerCheck;
    if !Halted(c) { EagerVerdict(View(c, now, offset), input); }
  }

  lemma ViewKeeps(c: Config, now: int, offset: int)
    ensures View(c, now, offset).settings == c.settings && View(c, now, offset).kill == c.kill
  {
  }

  lemma {:induction false} StreakHasLatest(es: seq<Event>, id: ConfigId, minutes: real, now: int)
    ensures Streak(es, id, minutes, now) > 0 ==> LatestFailure(es, id).Some?
    decreases |es|
  {
    if es != [] {
      StreakHasLatest(es[..|es| - 1], id, minutes, now);
    }
  }

  lemma EagerVerdict(e: Eager, input: CheckInput)
    requires Sound(e.settings) && !(e.settings.killSwitchEnabled && e.kill.triggered) && e.settings.circuitBreakerEnabled
    ensures e.failureCount < e.settings.maxFailuresBeforeBreaker ==>
      forall v :: v in EagerCheck(e, input).violations ==> !v.CircuitBreakerOpen?
    ensures e.failureCount >= e.settings.maxFailuresBeforeBreaker && e.lastFailureAt.Some? ==>
      EagerCheck(e, input)
      == CheckResult([CircuitBreakerOpen(e.failureCount, Some(e.lastFailureAt.value as real
                                                              + e.settings.circuitBreakerResetMinutes * 60000.0))], [])
  {
  }

  // ---- The daily total ----

  /** The local day of a moment. */
  function Day(t: int, offset: int): int {
    (t + offset) / 86400000
  }

  /** What the successes of a configuration spent on one day. */
  function Spent(es: seq<Event>, id: ConfigId, day: int, offset: int): real {
    if es == [] then 0.0
    else
      var e := es[|es| - 1];
      Spent(es[..|es| - 1], id, day, offset) + SpentBy(e, id, day, offset)
  }

  function SpentBy(e: Event, id: ConfigId, day: int, offset: int): real {
    if e.RecordSuccess? && e.id == id && Day(e.now, offset) == day then e.notionalUsd else 0.0
  }

  lemma MidnightIsDay(r: int, t: int, offset: int)
    ensures t >= NextMidnight(r, offset) <==> Day(t, offset) > Day(r, offset)
  {
  }

  /** The total is what was spent on the day of its last reset, and nothing was spent on later days. */
  ghost predicate Tallies(c: Config, es: seq<Event>, id: ConfigId, now: int, offset: int) {
    && c.dailyResetAt <= now
    && c.dailyNotionalUsd == Spent(es, id, Day(c.dailyResetAt, offset), offset)
    && forall day :: day > Day(c.dailyResetAt, offset) ==> Spent(es, id, day, offset) == 0.0
  }

  lemma DayMonotone(a: int, b: int, offset: int)
    requires a <= b
    ensures Day(a, offset) <= Day(b, offset)
  {
  }

  lemma ResetKeepsTally(c: Config, es: seq<Event>, id: ConfigId, t: int, offset: int)
    requires Tallies(c, es, id, t, offset)
    ensures Tallies(AfterDailyReset(c, t, offset), es, id, t, offset)
    ensures Day(AfterDailyReset(c, t, offset).dailyResetAt, offset) == Day(t, offset)
  {
    MidnightIsDay(c.dailyResetAt, t, offset);
    DayMonotone(c.dailyResetAt, t, offset);
    hide Day, NextMidnight;
  }

  lemma SpentExtends(front: seq<Event>, e: Event, id: ConfigId, offset: int)
    ensures forall day :: Spent(front + [e], id, day, offset) == Spent(front, id, day, offset) + SpentBy(e, id, day, offset)
  {
    assert (front + [e])[..|front|] == front;
  }

  /** One configuration after an operation, as far as its total and its last reset are concerned. */
  lemma TallyStep(cs: Configs, front: seq<Event>, e: Event, id: ConfigId, offset: int)
    requires id in cs && !Recreates(e, id) && Tallies(cs[id], front, id, e.now, offset)
    ensures var after := Step(cs, e, offset).0;
      id in after && Tallies(after[id], front + [e], id, e.now, offset)
  {
    var c, t := cs[id], e.now;
    SpentExtends(front, e, id, offset);
    ResetKeepsTally(c, front, id, t, offset);
    if e.RecordSuccess? && e.id == id {
      SuccessTallies(c, e.notionalUsd, t, offset);
      hide Spent, Day, AfterDailyReset, RecordSuccessOne;
    } else if e.Check? {
      CheckTouches(cs, id, e.input, t, offset);
      CheckTallies(c, e.input, t, offset);
      hide Step, Spent, Day, AfterDailyReset, CheckOne;
    } else if e.RecordFailure? && e.id == id {
      hide Spent, Day, AfterDailyReset;
    } else {
      UntouchedBy(cs, id, e, offset);
      hide Step, Spent, Day, AfterDailyReset;
    }
  }

  lemma SuccessTallies(c: Config, notional: real, t: int, offset: int)
    ensures var after, reset := RecordSuccessOne(c, notional, t, offset), AfterDailyReset(c, t, offset);
      after.dailyResetAt == reset.dailyResetAt && after.dailyNotionalUsd == reset.dailyNotionalUsd + notional
  {
  }

  lemma CheckTallies(c: Config, input: CheckInput, t: int, offset: int)
    ensures var after, reset := CheckOne(c, input, t, offset).0, AfterDailyReset(c, t, offset);
      || (after.dailyResetAt == c.dailyResetAt && after.dailyNotionalUsd == c.dailyNotionalUsd)
      || (after.dailyResetAt == reset.dailyResetAt && after.dailyNotionalUsd == reset.dailyNotionalUsd)
  {
  }

  lemma {:induction false} RunTallies(cs: Configs, id: ConfigId, es: seq<Event>, now: int, offset: int)
    requires id in cs && cs[id].dailyNotionalUsd == 0.0
    requires NeverRecreated(es, id) && Before(es, now) && cs[id].dailyResetAt <= (if es == [] then now else es[0].now)
    ensures var state := StateAfter(cs, es, offset); id in state && Tallies(state[id], es, id, now, offset)
    decreases |es|
  {
    if es == [] {
      NothingTallied(cs[id], id, now, offset);
    } else {
      var front, e := es[..|es| - 1], es[|es| - 1];
      assert es == front + [e];
      StateAfterAppend(cs, front, e, offset);
      BeforeLast(es, id, now);
      hide Step, StateAfter, Tallies, Before, NeverRecreated, Recreates;
      RunTallies(cs, id, front, e.now, offset);
      TallyStep(StateAfter(cs, front, offset), front, e, id, offset);
      TalliesLater(StateAfter(cs, es, offset)[id], es, id, e.now, now, offset);
    }
  }

  lemma NothingTallied(c: Config, id: ConfigId, now: int, offset: int)
    requires c.dailyNotionalUsd == 0.0 && c.dailyResetAt <= now
    ensures Tallies(c, [], id, now, offset)
  {
  }

  lemma TalliesLater(c: Config, es: seq<Event>, id: ConfigId, now: int, later: int, offset: int)
    requires now <= later && Tallies(c, es, id, now, offset)
    ensures Tallies(c, es, id, later, offset)
  {
    hide Spent, Day;
  }

  /**
   The daily total in force at any moment is the sum of today's successes of that configuration, whenever and however
   often it was reset in between.
   */
  lemma DailyTotalIsTodaysSum(cs: Configs, id: ConfigId, es: seq<Event>, now: int, offset: int)
    requires id in cs && cs[id].dailyNotionalUsd == 0.0
    requires NeverRecreated(es, id) && Before(es, now) && cs[id].dailyResetAt <= (if es == [] then now else es[0].now)
    ensures var state := StateAfter(cs, es, offset);
      id in state && View(state[id], now, offset).dailyNotionalUsd == Spent(es, id, Day(now, offset), offset)
  {
    RunTallies(cs, id, es, now, offset);
    hide StateAfter, Tallies;
    TallyInForce(StateAfter(cs, es, offset)[id], es, id, now, offset);
  }

  lemma TallyInForce(c: Config, es: seq<Event>, id: ConfigId, now: int, offset: int)
    requires Tallies(c, es, id, now, offset)
    ensures View(c, now, offset).dailyNotionalUsd == Spent(es, id, Day(now, offset), offset)
  {
    MidnightIsDay(c.dailyResetAt, now, offset);
    DayMonotone(c.dailyResetAt, now, offset);
    TotalInForce(c, now, offset);
    hide View, Spent, Day, NextMidnight;
  }

  lemma TotalInForce(c: Config, now: int, offset: int)
    ensures View(c, now, offset).dailyNotionalUsd == if now >= NextMidnight(c.dailyResetAt, offset) then 0.0 else c.dailyNotionalUsd
  {
    hide NextMidnight;
  }

  // ---- What a violation says ----

  /** The size and daily violations of a configuration that is neither halted nor tripped, one by one. */
  lemma ViolationsTell(c: Config, input: CheckInput, now: int, offset: int)
    requires !Halted(c) && !BreakerTripped(c, now)
    ensures var s, x, result := c.settings, input.notionalUsd, CheckOne(c, input, now, offset).1;
      && (forall a, l :: AboveMaximum(a, l) in result.violations
            <==> s.maxSingleActionNotionalUsd == Some(l) && a == x && x > l)
      && (forall a, l :: BelowMinimum(a, l) in result.violations
            <==> s.minActionNotionalUsd == Some(l) && a == x && x < l)
      && (forall d, a, l :: AboveDailyLimit(d, a, l) in result.violations
            <==> s.maxDailyNotionalUsd == Some(l) && a == x && d == View(c, now, offset).dailyNotionalUsd && d + x > l)
      && (result.warnings == if s.maxConcurrentExecutions.GetOr(0) != 0 && input.isExecution
                             then [s.maxConcurrentExecutions.GetOr(0)] else [])
  {
    MidnightFacts(now, now, offset);
    var s, x := c.settings, input.notionalUsd;
    var daily := View(c, now, offset).dailyNotionalUsd;
    var result := CheckOne(c, input, now, offset).1;
    assert result.violations == SizeViolations(s, x) + DailyViolations(s, daily, x);
    hide View, CheckOne;
  }
}
