/**
 Runs of the guardrail engine over any sequence of operations: extra checks never change anything later,
 and a disciplined caller can never drive a daily total over its limit.
 */
module GuardrailRuns {
  import opened Basics
  import opened GuardrailModel

  datatype Event =
    | Check(input: CheckInput, now: int)
    | RecordFailure(id: ConfigId, now: int)
    | RecordSuccess(id: ConfigId, notionalUsd: real, now: int)
    | TriggerKillSwitch(id: ConfigId, triggeredBy: string, reason: string, now: int)
    | ResetKillSwitch(id: ConfigId, now: int)
    | CreateConfig(scopeType: Scope, scopeId: string, initial: Config, now: int)

  datatype Output =
    | Verdict(result: CheckResult)
    | FailureCount(count: Option<int>)
    | DailyTotal(total: Option<real>)
    | KillSwitchChanged(ok: bool)
    | Created(id: ConfigId)

  // ---- One operation on the whole engine ----

  /** The configuration of a scope; `createConfig` keeps at most one. */
  ghost function IdFor(ids: set<ConfigId>, scopeType: Scope, scopeId: string): (r: Option<ConfigId>)
    ensures r.Some? ==> r.value in ids && r.value.scopeType == scopeType && r.value.scopeId == scopeId
  {
    if exists id :: id in ids && id.scopeType == scopeType && id.scopeId == scopeId then
      var id :| id in ids && id.scopeType == scopeType && id.scopeId == scopeId;
      Some(id)
    else None
  }

  ghost function IdForOptional(ids: set<ConfigId>, scopeType: Scope, scopeId: Option<string>): seq<ConfigId> {
    if scopeId.None? || scopeId.value == "" then []
    else match IdFor(ids, scopeType, scopeId.value)
      case Some(id) => [id]
      case None => []
  }

  /** Global first, then venue, sleeve and strategy. */
  ghost function Applicable(ids: set<ConfigId>, input: CheckInput): seq<ConfigId> {
    IdForOptional(ids, Global, Some("default"))
    + IdForOptional(ids, Venue, input.venueId)
    + IdForOptional(ids, Sleeve, input.sleeveId)
    + IdForOptional(ids, Strategy, input.strategyId)
  }

  /** Some check consults this configuration: the default global one, and every other scope with a name. */
  predicate Reachable(id: ConfigId) {
    if id.scopeType == Global then id.scopeId == "default" else id.scopeId != ""
  }

  lemma ApplicableIds(ids: set<ConfigId>, input: CheckInput)
    ensures var found := Applicable(ids, input);
      && (forall i :: 0 <= i < |found| ==> found[i] in ids && Reachable(found[i]))
      && (forall i, j :: 0 <= i < j < |found| ==> found[i] != found[j])
  {
  }

  function Merge(a: CheckResult, b: CheckResult): CheckResult {
    CheckResult(a.violations + b.violations, a.warnings + b.warnings)
  }

  function CheckAll(cs: Configs, found: seq<ConfigId>, input: CheckInput, now: int, offset: int): (r: (Configs, CheckResult))
    requires forall i :: 0 <= i < |found| ==> found[i] in cs
    ensures r.0.Keys == cs.Keys
  {
    if found == [] then (cs, CheckResult([], []))
    else
      var (before, soFar) := CheckAll(cs, found[..|found| - 1], input, now, offset);
      var id := found[|found| - 1];
      var (c, result) := CheckOne(before[id], input, now, offset);
      (before[id := c], Merge(soFar, result))
  }

  function WithoutScope<T>(cs: map<ConfigId, T>, scopeType: Scope, scopeId: string): map<ConfigId, T> {
    map id | id in cs && !(id.scopeType == scopeType && id.scopeId == scopeId) :: cs[id]
  }

  ghost function Step(cs: Configs, e: Event, offset: int): (Configs, Output) {
    match e
    case Check(input, now) =>
      ApplicableIds(cs.Keys, input);
      var (after, result) := CheckAll(cs, Applicable(cs.Keys, input), input, now, offset);
      (after, Verdict(result))
    case RecordFailure(id, now) =>
      if id !in cs || !cs[id].settings.circuitBreakerEnabled then (cs, FailureCount(None))
      else
        var c := RecordFailureOne(cs[id], now);
        (cs[id := c], FailureCount(Some(c.failureCount)))
    case RecordSuccess(id, notional, now) =>
      if id !in cs then (cs, DailyTotal(None))
      else
        var c := RecordSuccessOne(cs[id], notional, now, offset);
        (cs[id := c], DailyTotal(Some(c.dailyNotionalUsd)))
    case TriggerKillSwitch(id, triggeredBy, reason, now) =>
      if id !in cs || !cs[id].settings.killSwitchEnabled then (cs, KillSwitchChanged(false))
      else
        (cs[id := cs[id].(kill := KillSwitch(true, Some(now), Some(triggeredBy), Some(reason)))],
         KillSwitchChanged(true))
    case ResetKillSwitch(id, now) =>
      if id !in cs then (cs, KillSwitchChanged(false))
      else (cs[id := cs[id].(kill := KillSwitch(false, None, None, None))], KillSwitchChanged(true))
    case CreateConfig(scopeType, scopeId, initial, now) =>
      var id := ConfigId(scopeType, scopeId, now);
      (WithoutScope(cs, scopeType, scopeId)[id := initial], Created(id))
  }

  ghost function Outputs(cs: Configs, es: seq<Event>, offset: int): seq<Output>
    decreases |es|
  {
    if es == [] then []
    else
      var (after, out) := Step(cs, es[0], offset);
      [out] + Outputs(after, es[1..], offset)
  }

  // ---- Extra checks ----

  /** A run in which some checks are marked as extra. */
  datatype Marked = Real(event: Event) | Probe(input: CheckInput, at: int) {
    function Time(): int {
      if Real? then event.now else at
    }
  }

  ghost function Strip(run: seq<Marked>): seq<Event> {
    if run == [] then []
    else (if run[0].Real? then [run[0].event] else []) + Strip(run[1..])
  }

  /** What the caller sees of the real operations when the probes are executed as well. */
  ghost function RealOutputs(cs: Configs, run: seq<Marked>, offset: int): seq<Output>
    decreases |run|
  {
    if run == [] then []
    else if run[0].Real? then
      var (after, out) := Step(cs, run[0].event, offset);
      [out] + RealOutputs(after, run[1..], offset)
    else RealOutputs(Step(cs, Check(run[0].input, run[0].at), offset).0, run[1..], offset)
  }

  ghost predicate Monotone(run: seq<Marked>) {
    forall i, j :: 0 <= i < j < |run| ==> run[i].Time() <= run[j].Time()
  }

  /** Every configuration that a check can consult is sound. */
  ghost predicate AllSound(cs: Configs) {
    forall id :: id in cs && Reachable(id) ==> Sound(cs[id].settings)
  }

  predicate CreatesSoundly(e: Event) {
    e.CreateConfig? && Reachable(ConfigId(e.scopeType, e.scopeId, e.now)) ==> Sound(e.initial.settings)
  }

  ghost predicate CreatesSound(run: seq<Marked>) {
    forall i :: 0 <= i < |run| && run[i].Real? ==> CreatesSoundly(run[i].event)
  }

  /** Both engines stand for the same eager engine at time `now`. */
  ghost predicate Same(a: Configs, b: Configs, now: int, offset: int) {
    && a.Keys == b.Keys
    && forall id :: id in a ==> View(a[id], now, offset) == View(b[id], now, offset)
  }

  lemma SameLater(a: Configs, b: Configs, now: int, later: int, offset: int)
    requires now <= later && Same(a, b, now, offset)
    ensures Same(a, b, later, offset)
  {
    forall id | id in a
      ensures View(a[id], later, offset) == View(b[id], later, offset)
    {
      ViewLater(a[id], now, later, offset);
      ViewLater(b[id], now, later, offset);
    }
  }

  lemma ViewLater(c: Config, now: int, later: int, offset: int)
    requires now <= later
    ensures View(c, later, offset) == Tick(View(c, now, offset), later, offset)
  {
    TickTwice(Eager(c.settings, c.kill, c.failureCount, c.lastFailureAt, c.dailyNotionalUsd,
                    NextMidnight(c.dailyResetAt, offset)), now, later, offset);
  }

  lemma {:induction false} ChecksAgree(a: Configs, b: Configs, found: seq<ConfigId>, input: CheckInput, now: int, offset: int)
    requires Same(a, b, now, offset) && AllSound(a) && AllSound(b)
    requires forall i :: 0 <= i < |found| ==> found[i] in a && found[i] in b && Reachable(found[i])
    ensures var (a', ra) := CheckAll(a, found, input, now, offset);
      var (b', rb) := CheckAll(b, found, input, now, offset);
      && ra == rb
      && Same(a', b', now, offset) && Same(a, a', now, offset)
      && AllSound(a') && AllSound(b')
  {
    hide View, CheckOne, EagerCheck;
    if found != [] {
      var front, id := found[..|found| - 1], found[|found| - 1];
      ChecksAgree(a, b, front, input, now, offset);
      CheckRefines(CheckAll(a, front, input, now, offset).0[id], input, now, offset);
      CheckRefines(CheckAll(b, front, input, now, offset).0[id], input, now, offset);
      CheckKeepsSettings(CheckAll(a, front, input, now, offset).0[id], input, now, offset);
      CheckKeepsSettings(CheckAll(b, front, input, now, offset).0[id], input, now, offset);
    }
  }

  lemma CheckKeepsSettings(c: Config, input: CheckInput, now: int, offset: int)
    ensures CheckOne(c, input, now, offset).0.settings == c.settings
  {
  }

  lemma ViewDeterminesSettings(a: Config, b: Config, now: int, offset: int)
    requires View(a, now, offset) == View(b, now, offset)
    ensures a.settings == b.settings
  {
  }

  lemma KillSwitchAgrees(a: Config, b: Config, kill: KillSwitch, now: int, offset: int)
    requires View(a, now, offset) == View(b, now, offset)
    ensures View(a.(kill := kill), now, offset) == View(b.(kill := kill), now, offset)
  {
    assert View(a.(kill := kill), now, offset) == View(a, now, offset).(kill := kill);
    assert View(b.(kill := kill), now, offset) == View(b, now, offset).(kill := kill);
  }

  /** One operation on two engines that stand for the same thing gives the same output. */
  lemma StepAgrees(a: Configs, b: Configs, e: Event, offset: int)
    requires Same(a, b, e.now, offset) && AllSound(a) && AllSound(b)
    requires CreatesSoundly(e)
    ensures var (a', ra) := Step(a, e, offset);
      var (b', rb) := Step(b, e, offset);
      ra == rb && Same(a', b', e.now, offset) && AllSound(a') && AllSound(b')
  {
    hide View, CheckAll, EagerFailure, EagerSuccess, Tick, RecordFailureOne, RecordSuccessOne, Applicable;
    var now := e.now;
    if e.Check? {
      ApplicableIds(a.Keys, e.input);
      ChecksAgree(a, b, Applicable(a.Keys, e.input), e.input, now, offset);
    } else if e.CreateConfig? {
    } else if e.id in a {
      ViewDeterminesSettings(a[e.id], b[e.id], now, offset);
      match e {
        case RecordFailure(id, _) =>
          FailureRefines(a[id], now, offset);
          FailureRefines(b[id], now, offset);
          OperationsKeepSettings(a[id], 0.0, now, offset);
          OperationsKeepSettings(b[id], 0.0, now, offset);
        case RecordSuccess(id, notional, _) =>
          SuccessRefines(a[id], notional, now, offset);
          SuccessRefines(b[id], notional, now, offset);
          OperationsKeepSettings(a[id], notional, now, offset);
          OperationsKeepSettings(b[id], notional, now, offset);
        case TriggerKillSwitch(id, triggeredBy, reason, _) =>
          KillSwitchAgrees(a[id], b[id], KillSwitch(true, Some(now), Some(triggeredBy), Some(reason)), now, offset);
        case ResetKillSwitch(id, _) =>
          KillSwitchAgrees(a[id], b[id], KillSwitch(false, None, None, None), now, offset);
      }
    }
  }

  lemma OperationsKeepSettings(c: Config, notional: real, now: int, offset: int)
    ensures RecordFailureOne(c, now).settings == c.settings
    ensures RecordSuccessOne(c, notional, now, offset).settings == c.settings
  {
  }

  /**
   Any number of extra checks, anywhere in any run with a monotone clock, changes no later verdict, no failure
   count returned by a recorded failure and no daily total returned by a recorded success.
   */
  lemma {:induction false} ProbesChangeNothing(a: Configs, b: Configs, run: seq<Marked>, clock: int, offset: int)
    requires Same(a, b, clock, offset) && AllSound(a) && AllSound(b)
    requires Monotone(run) && CreatesSound(run)
    requires run != [] ==> clock <= run[0].Time()
    ensures RealOutputs(a, run, offset) == Outputs(b, Strip(run), offset)
    decreases |run|
  {
    hide View, Step, Sound;
    if run != [] {
      var now := run[0].Time();
      SameLater(a, b, clock, now, offset);
      if run[0].Real? {
        var e := run[0].event;
        StepAgrees(a, b, e, offset);
        ProbesChangeNothing(Step(a, e, offset).0, Step(b, e, offset).0, run[1..], now, offset);
        assert Strip(run) == [e] + Strip(run[1..]);
        assert Strip(run)[1..] == Strip(run[1..]);
        assert RealOutputs(a, run, offset)
            == [Step(a, e, offset).1] + RealOutputs(Step(a, e, offset).0, run[1..], offset);
        assert Outputs(b, Strip(run), offset)
            == [Step(b, e, offset).1] + Outputs(Step(b, e, offset).0, Strip(run[1..]), offset);
      } else {
        ProbeKeepsSame(a, b, run[0].input, now, offset);
        ProbesChangeNothing(Step(a, Check(run[0].input, now), offset).0, b, run[1..], now, offset);
        assert Strip(run) == Strip(run[1..]);
        assert RealOutputs(a, run, offset)
            == RealOutputs(Step(a, Check(run[0].input, now), offset).0, run[1..], offset);
      }
    }
  }

  lemma ProbeKeepsSame(a: Configs, b: Configs, input: CheckInput, now: int, offset: int)
    requires Same(a, b, now, offset) && AllSound(a)
    ensures var after := Step(a, Check(input, now), offset).0;
      Same(after, b, now, offset) && AllSound(after)
  {
    hide View, CheckAll, Applicable;
    ApplicableIds(a.Keys, input);
    ChecksAgree(a, a, Applicable(a.Keys, input), input, now, offset);
  }

  // ---- Exactly when extra checks are harmless ----

  ghost predicate StartsAfter(run: seq<Marked>, clock: int) {
    run != [] ==> clock <= run[0].Time()
  }

  ghost predicate ProbesHarmless(cs: Configs, clock: int, offset: int) {
    forall run: seq<Marked> :: Monotone(run) && CreatesSound(run) && StartsAfter(run, clock)
      ==> RealOutputs(cs, run, offset) == Outputs(cs, Strip(run), offset)
  }

  /** `createConfig` keeps at most one configuration per scope. */
  ghost predicate OnePerScope(ids: set<ConfigId>) {
    forall i, j :: i in ids && j in ids && i != j ==> i.scopeType != j.scopeType || i.scopeId != j.scopeId
  }

  ghost function StateAfter(cs: Configs, es: seq<Event>, offset: int): Configs
    decreases |es|
  {
    if es == [] then cs else StateAfter(Step(cs, es[0], offset).0, es[1..], offset)
  }

  lemma {:induction false} StateAfterAppend(cs: Configs, es: seq<Event>, e: Event, offset: int)
    ensures StateAfter(cs, es + [e], offset) == Step(StateAfter(cs, es, offset), e, offset).0
    decreases |es|
  {
    hide Step;
    if es == [] {
      assert [e][1..] == [] && [] + [e] == [e];
    } else {
      assert (es + [e])[1..] == es[1..] + [e];
      StateAfterAppend(Step(cs, es[0], offset).0, es[1..], e, offset);
    }
  }

  /** All operations of a run, probes included. */
  ghost function Executed(run: seq<Marked>): seq<Event> {
    if run == [] then []
    else [if run[0].Real? then run[0].event else Check(run[0].input, run[0].at)] + Executed(run[1..])
  }

  lemma {:induction false} LastOutput(cs: Configs, es: seq<Event>, e: Event, offset: int)
    ensures var out := Outputs(cs, es + [e], offset);
      out != [] && out[|out| - 1] == Step(StateAfter(cs, es, offset), e, offset).1
    decreases |es|
  {
    hide Step;
    if es == [] {
      assert [e][1..] == [] && [] + [e] == [e];
    } else {
      assert (es + [e])[1..] == es[1..] + [e];
      LastOutput(Step(cs, es[0], offset).0, es[1..], e, offset);
    }
  }

  function FirstOf(run: seq<Marked>): Event
    requires run != []
  {
    if run[0].Real? then run[0].event else Check(run[0].input, run[0].at)
  }

  lemma RealOutputsUnfold(cs: Configs, run: seq<Marked>, offset: int)
    requires run != []
    ensures var (after, out) := Step(cs, FirstOf(run), offset);
      RealOutputs(cs, run, offset) == (if run[0].Real? then [out] else []) + RealOutputs(after, run[1..], offset)
  {
    hide Step;
  }

  lemma {:induction false} LastRealOutput(cs: Configs, run: seq<Marked>, e: Event, offset: int)
    ensures var out := RealOutputs(cs, run + [Real(e)], offset);
      out != [] && out[|out| - 1] == Step(StateAfter(cs, Executed(run), offset), e, offset).1
    decreases |run|
  {
    hide Step, RealOutputs;
    var longer := run + [Real(e)];
    RealOutputsUnfold(cs, longer, offset);
    if run == [] {
      assert longer[1..] == [];
      NoRealOutputs(Step(cs, e, offset).0, offset);
    } else {
      assert longer[1..] == run[1..] + [Real(e)] && longer[0] == run[0];
      assert Executed(run) == [FirstOf(run)] + Executed(run[1..]);
      assert Executed(run)[1..] == Executed(run[1..]);
      LastRealOutput(Step(cs, FirstOf(run), offset).0, run[1..], e, offset);
    }
  }

  lemma NoRealOutputs(cs: Configs, offset: int)
    ensures RealOutputs(cs, [], offset) == []
  {
  }

  /** A whole check, taken apart: the new state and the violations of each configuration it consults. */
  lemma {:induction false} CheckAllParts(cs: Configs, found: seq<ConfigId>, input: CheckInput, now: int, offset: int)
    requires forall i :: 0 <= i < |found| ==> found[i] in cs
    requires forall i, j :: 0 <= i < j < |found| ==> found[i] != found[j]
    ensures var (after, result) := CheckAll(cs, found, input, now, offset);
      && (forall id :: id in cs ==> after[id] == if id in found then CheckOne(cs[id], input, now, offset).0 else cs[id])
      && (forall v :: v in result.violations <==> Reported(cs, found, v, input, now, offset))
  {
    hide CheckOne;
    if found != [] {
      var front, id := found[..|found| - 1], found[|found| - 1];
      CheckAllParts(cs, front, input, now, offset);
      assert found == front + [id] && id !in front;
      forall v
        ensures Reported(cs, found, v, input, now, offset)
          <==> Reported(cs, front, v, input, now, offset) || ReportedBy(cs, id, v, input, now, offset)
      {
        ReportedSplits(cs, front, id, v, input, now, offset);
      }
      hide Reported;
    }
  }

  /** Some consulted configuration reports `v`. */
  ghost predicate Reported(cs: Configs, found: seq<ConfigId>, v: Violation, input: CheckInput, now: int, offset: int) {
    exists id :: id in found && ReportedBy(cs, id, v, input, now, offset)
  }

  ghost predicate ReportedBy(cs: Configs, id: ConfigId, v: Violation, input: CheckInput, now: int, offset: int) {
    id in cs && v in CheckOne(cs[id], input, now, offset).1.violations
  }

  lemma ReportedSplits(cs: Configs, front: seq<ConfigId>, id: ConfigId, v: Violation, input: CheckInput, now: int, offset: int)
    requires id in cs
    ensures Reported(cs, front + [id], v, input, now, offset)
      <==> Reported(cs, front, v, input, now, offset) || ReportedBy(cs, id, v, input, now, offset)
  {
    hide ReportedBy;
    assert forall x :: x in front + [id] <==> x in front || x == id;
  }

  /** A check input that consults the default global configuration and the one with this id, and no other. */
  function InputFor(id: ConfigId): CheckInput {
    CheckInput(if id.scopeType == Venue then Some(id.scopeId) else None,
               if id.scopeType == Sleeve then Some(id.scopeId) else None,
               if id.scopeType == Strategy then Some(id.scopeId) else None,
               0.0, false)
  }

  lemma Consulted(ids: set<ConfigId>, id: ConfigId)
    requires OnePerScope(ids) && id in ids && Reachable(id)
    ensures id in Applicable(ids, InputFor(id))
    ensures forall other :: other in Applicable(ids, InputFor(id)) && other != id ==>
      other in ids && other.scopeType == Global && other.scopeId == "default"
  {
    assert IdFor(ids, id.scopeType, id.scopeId) == Some(id);
  }

  /** A check of a whole engine, seen from one configuration. */
  lemma CheckSeenFrom(cs: Configs, id: ConfigId, now: int, offset: int)
    requires OnePerScope(cs.Keys) && id in cs && Reachable(id)
    ensures var (after, out) := Step(cs, Check(InputFor(id), now), offset);
      && after.Keys == cs.Keys
      && after[id] == CheckOne(cs[id], InputFor(id), now, offset).0
      && (forall other :: other in cs ==> after[other].settings == cs[other].settings)
      && out.Verdict?
      && (forall v :: ReportedBy(cs, id, v, InputFor(id), now, offset) ==> v in out.result.violations)
      && (forall v :: v in out.result.violations && !ReportedBy(cs, id, v, InputFor(id), now, offset) ==>
            (exists g ::
               g != id && g.scopeType == Global && g.scopeId == "default" && ReportedBy(cs, g, v, InputFor(id), now, offset)))
  {
    var input := InputFor(id);
    ApplicableIds(cs.Keys, input);
    Consulted(cs.Keys, id);
    CheckAllParts(cs, Applicable(cs.Keys, input), input, now, offset);
    forall c: Config
      ensures CheckOne(c, input, now, offset).0.settings == c.settings
    {
      CheckKeepsSettings(c, input, now, offset);
    }
    hide CheckOne, CheckAll, Applicable;
  }

  /** A sound configuration never reports an open breaker without failures. */
  lemma SoundReportsFailures(c: Config, input: CheckInput, now: int, offset: int)
    requires Sound(c.settings)
    ensures CircuitBreakerOpen(0, None) !in CheckOne(c, input, now, offset).1.violations
  {
    var violations := CheckOne(c, input, now, offset).1.violations;
    forall i | 0 <= i < |violations|
      ensures violations[i] != CircuitBreakerOpen(0, None)
    {
    }
  }

  /** A time span after which the window of a failure has elapsed. */
  function AfterWindow(settings: Settings): int {
    if settings.circuitBreakerResetMinutes < 0.0 then 1
    else (settings.circuitBreakerResetMinutes * 60000.0).Floor + 1
  }

  lemma WindowIsOver(settings: Settings, t: int)
    ensures AfterWindow(settings) > 0
    ensures WindowElapsed(settings, Some(t), t + AfterWindow(settings))
  {
  }

  /** The kill switch is reset, and two failures far apart leave a count of one, whatever was recorded before. */
  ghost function Preparation(id: ConfigId, settings: Settings, start: int): seq<Event> {
    [ResetKillSwitch(id, start), RecordFailure(id, start), RecordFailure(id, start + AfterWindow(settings))]
  }

  function Late(settings: Settings, start: int): int {
    start + AfterWindow(settings) + AfterWindow(settings)
  }

  /** Then a probe once the window has elapsed, a success, and a check. */
  ghost function RevealingRun(id: ConfigId, settings: Settings, start: int): seq<Marked> {
    var prepared := Preparation(id, settings, start);
    [Real(prepared[0]), Real(prepared[1]), Real(prepared[2]), Probe(InputFor(id), Late(settings, start)),
     Real(RecordSuccess(id, 0.0, Late(settings, start)))]
    + [Real(Check(InputFor(id), Late(settings, start)))]
  }

  /** One failure, long ago, and a breaker that opens without any. */
  ghost predicate Prepared(c: Config, settings: Settings, start: int) {
    && c.settings == settings && !c.kill.triggered
    && c.failureCount == 1 && c.lastFailureAt == Some(start + AfterWindow(settings))
  }

  lemma PreparedConfig(c: Config, start: int)
    requires c.settings.circuitBreakerEnabled
    ensures var once := RecordFailureOne(c.(kill := KillSwitch(false, None, None, None)), start);
      Prepared(RecordFailureOne(once, start + AfterWindow(c.settings)), c.settings, start)
  {
    WindowIsOver(c.settings, start);
    hide AfterWindow, WindowElapsed;
  }

  lemma PreparedEngine(cs: Configs, id: ConfigId, start: int, offset: int)
    requires id in cs && !Sound(cs[id].settings)
    ensures var after := StateAfter(cs, Preparation(id, cs[id].settings, start), offset);
      && after.Keys == cs.Keys
      && Prepared(after[id], cs[id].settings, start)
      && (forall other :: other in cs && other != id ==> after[other] == cs[other])
  {
    var settings := cs[id].settings;
    PreparedConfig(cs[id], start);
    hide RecordFailureOne, AfterWindow, Prepared, StateAfter;
    var es := Preparation(id, settings, start);
    StateAfterAppend(cs, [es[0], es[1]], es[2], offset);
    StateAfterAppend(cs, [es[0]], es[1], offset);
    StateAfterAppend(cs, [], es[0], offset);
    StateAfterNothing(cs, offset);
    assert es == [es[0], es[1]] + [es[2]] && [es[0], es[1]] == [es[0]] + [es[1]] && [es[0]] == [] + [es[0]];
    forall c: Config, now: int
      ensures RecordFailureOne(c, now).settings == c.settings
    {
      OperationsKeepSettings(c, 0.0, now, offset);
    }
  }

  lemma StateAfterNothing(cs: Configs, offset: int)
    ensures StateAfter(cs, [], offset) == cs
  {
  }

  /** Without the probe the success clears the failure time, so the check finds the breaker open for good. */
  lemma WithoutProbe(c: Config, input: CheckInput, start: int, offset: int)
    requires !Sound(c.settings) && Prepared(c, c.settings, start)
    ensures var succeeded := RecordSuccessOne(c, 0.0, Late(c.settings, start), offset);
      CheckOne(succeeded, input, Late(c.settings, start), offset).1 == CheckResult([CircuitBreakerOpen(0, None)], [])
  {
  }

  /** With the probe the failure time survives the success, so the check finds its window elapsed. */
  lemma WithProbe(c: Config, input: CheckInput, start: int, offset: int)
    requires !Sound(c.settings) && Prepared(c, c.settings, start)
    ensures var late := Late(c.settings, start);
      var succeeded := RecordSuccessOne(CheckOne(c, input, late, offset).0, 0.0, late, offset);
      var result := CheckOne(succeeded, input, late, offset).1;
      && succeeded.settings == c.settings && succeeded.failureCount == 0 && succeeded.lastFailureAt == c.lastFailureAt
      && result == CheckResult(SizeViolations(c.settings, input.notionalUsd)
                               + DailyViolations(c.settings, succeeded.dailyNotionalUsd, input.notionalUsd),
                               Warnings(c.settings, input))
      && CircuitBreakerOpen(0, None) !in result.violations
  {
    var settings, late := c.settings, Late(c.settings, start);
    WindowIsOver(settings, start + AfterWindow(settings));
    hide AfterWindow, WindowElapsed;
    MidnightFacts(late, late, offset);
    var probed := CheckOne(c, input, late, offset).0;
    assert probed.failureCount == 0 && probed.lastFailureAt == c.lastFailureAt && probed.settings == settings;
    var succeeded := RecordSuccessOne(probed, 0.0, late, offset);
    assert succeeded.failureCount == 0 && succeeded.lastFailureAt == c.lastFailureAt && !succeeded.kill.triggered;
    assert !BreakerTripped(succeeded, late);
    var violations := CheckOne(succeeded, input, late, offset).1.violations;
    forall i | 0 <= i < |violations|
      ensures !violations[i].CircuitBreakerOpen?
    {
    }
  }

  /** The default global configuration, if it is not `id` itself, is sound. */
  ghost predicate OthersSound(cs: Configs, id: ConfigId) {
    forall g :: g in cs && g != id && g.scopeType == Global && g.scopeId == "default" ==> Sound(cs[g].settings)
  }

  /** The verdict of the final check contains a breaker that is open without failures and without a reset time. */
  ghost predicate FindsOpenBreaker(cs: Configs, id: ConfigId, now: int, offset: int) {
    var out := Step(cs, Check(InputFor(id), now), offset).1;
    out.Verdict? && CircuitBreakerOpen(0, None) in out.result.violations
  }

  lemma OpenWithoutProbe(cs: Configs, id: ConfigId, start: int, offset: int)
    requires OnePerScope(cs.Keys) && id in cs && Reachable(id) && !Sound(cs[id].settings)
    requires Prepared(cs[id], cs[id].settings, start)
    ensures var late := Late(cs[id].settings, start);
      FindsOpenBreaker(Step(cs, RecordSuccess(id, 0.0, late), offset).0, id, late, offset)
  {
    var late, input := Late(cs[id].settings, start), InputFor(id);
    WithoutProbe(cs[id], input, start, offset);
    hide CheckOne, RecordSuccessOne, AfterWindow, Late, Prepared, Sound, InputFor;
    var after := Step(cs, RecordSuccess(id, 0.0, late), offset).0;
    assert after.Keys == cs.Keys;
    assert [CircuitBreakerOpen(0, None)][0] == CircuitBreakerOpen(0, None);
    assert ReportedBy(after, id, CircuitBreakerOpen(0, None), input, late, offset);
    CheckSeenFrom(after, id, late, offset);
    hide Step;
  }

  lemma ClosedWithProbe(cs: Configs, id: ConfigId, start: int, offset: int)
    requires OnePerScope(cs.Keys) && id in cs && Reachable(id) && !Sound(cs[id].settings) && OthersSound(cs, id)
    requires Prepared(cs[id], cs[id].settings, start)
    ensures var late := Late(cs[id].settings, start);
      var probed := Step(cs, Check(InputFor(id), late), offset).0;
      !FindsOpenBreaker(Step(probed, RecordSuccess(id, 0.0, late), offset).0, id, late, offset)
  {
    var late, input := Late(cs[id].settings, start), InputFor(id);
    WithProbe(cs[id], input, start, offset);
    hide CheckOne, RecordSuccessOne, AfterWindow, Late, Prepared, InputFor, SizeViolations, DailyViolations, Warnings;
    CheckSeenFrom(cs, id, late, offset);
    var probed := Step(cs, Check(input, late), offset).0;
    var after := SuccessChangesOne(probed, id, late, offset);
    CheckSeenFrom(after, id, late, offset);
    hide Step;
    forall g | g in after && g != id && g.scopeType == Global && g.scopeId == "default"
      ensures !ReportedBy(after, g, CircuitBreakerOpen(0, None), input, late, offset)
    {
      SoundReportsFailures(after[g], input, late, offset);
    }
  }

  lemma SuccessChangesOne(cs: Configs, id: ConfigId, now: int, offset: int) returns (after: Configs)
    requires id in cs
    ensures after == Step(cs, RecordSuccess(id, 0.0, now), offset).0
    ensures after == cs[id := RecordSuccessOne(cs[id], 0.0, now, offset)]
  {
    hide RecordSuccessOne;
    after := Step(cs, RecordSuccess(id, 0.0, now), offset).0;
  }

  /** An unsound configuration is revealed by the run above, when no other configuration it meets is unsound. */
  lemma UnsoundIsRevealed(cs: Configs, id: ConfigId, start: int, offset: int)
    requires OnePerScope(cs.Keys) && id in cs && Reachable(id) && !Sound(cs[id].settings) && OthersSound(cs, id)
    ensures var run := RevealingRun(id, cs[id].settings, start);
      RealOutputs(cs, run, offset) != Outputs(cs, Strip(run), offset)
  {
    var settings := cs[id].settings;
    var es := Preparation(id, settings, start);
    var prepared := StateAfter(cs, es, offset);
    RevealingRunParts(id, settings, start);
    PreparedEngine(cs, id, start, offset);
    assert prepared[id].settings == settings;
    hide AfterWindow, StateAfter, Outputs, RealOutputs, Strip, Executed, Preparation, RevealingRun, Prepared, Step, Reachable, InputFor;
    var success, check := RecordSuccess(id, 0.0, Late(settings, start)), Check(InputFor(id), Late(settings, start));
    assert OthersSound(prepared, id);
    hide Late, Sound, OthersSound;
    OpenWithoutProbe(prepared, id, start, offset);
    ClosedWithProbe(prepared, id, start, offset);
    LastOutput(cs, es + [success], check, offset);
    StateAfterAppend(cs, es, success, offset);
    LastRealOutput(cs, RevealingRun(id, settings, start)[..5], check, offset);
    StateAfterAppend(cs, es + [check], success, offset);
    StateAfterAppend(cs, es, check, offset);
    CheckAnswers(Step(prepared, success, offset).0, InputFor(id), Late(settings, start), offset);
    CheckAnswers(Step(Step(prepared, check, offset).0, success, offset).0, InputFor(id), Late(settings, start), offset);
  }

  lemma CheckAnswers(cs: Configs, input: CheckInput, now: int, offset: int)
    ensures Step(cs, Check(input, now), offset).1.Verdict?
  {
    hide CheckAll, Applicable;
  }

  lemma RevealingRunParts(id: ConfigId, settings: Settings, start: int)
    ensures var run, es := RevealingRun(id, settings, start), Preparation(id, settings, start);
      var success, check := RecordSuccess(id, 0.0, Late(settings, start)), Check(InputFor(id), Late(settings, start));
      && |run| == 6 && run == run[..5] + [Real(check)]
      && Strip(run) == (es + [success]) + [check]
      && Executed(run[..5]) == (es + [check]) + [success]
      && Monotone(run) && CreatesSound(run) && run[0].Time() == start
  {
    WindowIsOver(settings, start);
    hide AfterWindow;
    var run := RevealingRun(id, settings, start);
    assert run[6..] == [] && run[5..][1..] == run[6..] && run[4..][1..] == run[5..] && run[3..][1..] == run[4..]
        && run[2..][1..] == run[3..] && run[1..][1..] == run[2..];
    StripSuffix(run);
    ExecutedPrefix(run);
  }

  lemma StripSuffix(run: seq<Marked>)
    requires |run| == 6 && run[0].Real? && run[1].Real? && run[2].Real? && run[3].Probe? && run[4].Real? && run[5].Real?
    ensures Strip(run) == [run[0].event, run[1].event, run[2].event, run[4].event, run[5].event]
  {
    assert run[5..][1..] == [] && run[4..][1..] == run[5..] && run[3..][1..] == run[4..]
        && run[2..][1..] == run[3..] && run[1..][1..] == run[2..];
    assert Strip(run[5..]) == [run[5].event];
    assert Strip(run[4..]) == [run[4].event, run[5].event];
    assert Strip(run[3..]) == Strip(run[4..]);
    assert Strip(run[2..]) == [run[2].event, run[4].event, run[5].event];
    assert Strip(run[1..]) == [run[1].event, run[2].event, run[4].event, run[5].event];
  }

  lemma ExecutedPrefix(run: seq<Marked>)
    requires |run| == 6 && run[0].Real? && run[1].Real? && run[2].Real? && run[3].Probe? && run[4].Real?
    ensures Executed(run[..5])
         == [run[0].event, run[1].event, run[2].event, Check(run[3].input, run[3].at), run[4].event]
  {
    var r := run[..5];
    assert r[4..][1..] == [] && r[3..][1..] == r[4..] && r[2..][1..] == r[3..] && r[1..][1..] == r[2..];
    assert Executed(r[4..]) == [run[4].event];
    assert Executed(r[3..]) == [Check(run[3].input, run[3].at), run[4].event];
    assert Executed(r[2..]) == [run[2].event, Check(run[3].input, run[3].at), run[4].event];
    assert Executed(r[1..]) == [run[1].event, run[2].event, Check(run[3].input, run[3].at), run[4].event];
  }

  /**
   For an engine in any state and at any time, extra checks are harmless in every run from then on if and only if
   every configuration that a check can consult is sound.
   */
  lemma ProbesHarmlessIff(cs: Configs, clock: int, offset: int)
    requires OnePerScope(cs.Keys)
    ensures ProbesHarmless(cs, clock, offset) <==> AllSound(cs)
  {
    hide View, Step, RealOutputs, Outputs, Strip, Sound, Reachable, CreatesSoundly;
    if AllSound(cs) {
      forall run: seq<Marked> | Monotone(run) && CreatesSound(run) && StartsAfter(run, clock)
        ensures RealOutputs(cs, run, offset) == Outputs(cs, Strip(run), offset)
      {
        ProbesChangeNothing(cs, cs, run, clock, offset);
      }
    } else {
      var id := UnsoundOne(cs);
      UnsoundIsRevealed(cs, id, clock, offset);
      RevealingRunParts(id, cs[id].settings, clock);
    }
  }

  /** An unsound configuration beside which the default global one is sound. */
  lemma UnsoundOne(cs: Configs) returns (id: ConfigId)
    requires OnePerScope(cs.Keys) && !AllSound(cs)
    ensures id in cs && Reachable(id) && !Sound(cs[id].settings) && OthersSound(cs, id)
  {
    hide Sound;
    id :| id in cs && Reachable(id) && !Sound(cs[id].settings);
    if g :| g in cs && g.scopeType == Global && g.scopeId == "default" && !Sound(cs[g].settings) {
      id := g;
    }
  }

  // ---- What an allowed check means ----

  /** One configuration lets an action through, judged by the daily total that is current at `now`. */
  ghost predicate Permits(c: Config, notional: real, now: int, offset: int) {
    var s := c.settings;
    && !Halted(c) && !BreakerTripped(c, now)
    && (s.maxSingleActionNotionalUsd.Some? ==> notional <= s.maxSingleActionNotionalUsd.value)
    && (s.minActionNotionalUsd.Some? ==> s.minActionNotionalUsd.value <= notional)
    && (s.maxDailyNotionalUsd.Some? ==> View(c, now, offset).dailyNotionalUsd + notional <= s.maxDailyNotionalUsd.value)
  }

  lemma CheckOnePermits(c: Config, input: CheckInput, now: int, offset: int)
    ensures CheckOne(c, input, now, offset).1.Allowed() <==> Permits(c, input.notionalUsd, now, offset)
  {
    MidnightFacts(now, now, offset);
  }

  /** A check allows an action exactly when every applicable configuration permits it, whatever the order of the checks. */
  lemma {:induction false} AllowedIff(cs: Configs, found: seq<ConfigId>, input: CheckInput, now: int, offset: int)
    requires forall i :: 0 <= i < |found| ==> found[i] in cs
    requires forall i, j :: 0 <= i < j < |found| ==> found[i] != found[j]
    ensures var (after, result) := CheckAll(cs, found, input, now, offset);
      && (result.Allowed() <==> AllPermit(cs, found, input.notionalUsd, now, offset))
      && (forall id :: id in cs && id !in found ==> after[id] == cs[id])
  {
    hide CheckOne, Permits, AllPermit;
    AllPermitFront(cs, found, input.notionalUsd, now, offset);
    if found != [] {
      var front, id := found[..|found| - 1], found[|found| - 1];
      AllowedIff(cs, front, input, now, offset);
      CheckOnePermits(cs[id], input, now, offset);
      assert id !in front;
    }
  }

  ghost predicate AllPermit(cs: Configs, found: seq<ConfigId>, notional: real, now: int, offset: int) {
    forall i :: 0 <= i < |found| ==> found[i] in cs && Permits(cs[found[i]], notional, now, offset)
  }

  lemma AllPermitFront(cs: Configs, found: seq<ConfigId>, notional: real, now: int, offset: int)
    requires forall i :: 0 <= i < |found| ==> found[i] in cs
    ensures found == [] ==> AllPermit(cs, found, notional, now, offset)
    ensures found != [] ==>
      (AllPermit(cs, found, notional, now, offset) <==>
       AllPermit(cs, found[..|found| - 1], notional, now, offset)
       && Permits(cs[found[|found| - 1]], notional, now, offset))
  {
    hide Permits;
  }

  // ---- The daily budget ----

  /** For each configuration, the notional its latest check allowed and no success has used since. */
  type Grants = map<ConfigId, real>

  ghost function GrantsAfter(cs: Configs, g: Grants, e: Event, offset: int): Grants {
    match e
    case Check(input, now) =>
      var touched := Applicable(cs.Keys, input);
      if Step(cs, e, offset).1.result.Allowed()
      then map id | id in g.Keys + (set i | i in touched) :: if id in touched then input.notionalUsd else g[id]
      else g - (set i | i in touched)
    case RecordSuccess(id, _, _) => g - {id}
    case CreateConfig(scopeType, scopeId, _, _) => g - (set id | id in g && id.scopeType == scopeType && id.scopeId == scopeId)
    case _ => g
  }

  /** Every success spends a non-negative grant, and new configurations start within their own limit. */
  ghost predicate Disciplined(cs: Configs, g: Grants, es: seq<Event>, offset: int)
    decreases |es|
  {
    es != [] ==>
      var e := es[0];
      && (e.RecordSuccess? && e.id in cs ==> e.id in g && g[e.id] == e.notionalUsd && e.notionalUsd >= 0.0)
      && (e.CreateConfig? ==> WithinBudget(e.initial))
      && Disciplined(Step(cs, e, offset).0, GrantsAfter(cs, g, e, offset), es[1..], offset)
  }

  ghost predicate WithinBudget(c: Config) {
    c.settings.maxDailyNotionalUsd.Some? ==> 0.0 <= c.dailyNotionalUsd <= c.settings.maxDailyNotionalUsd.value
  }

  /** A grant still fits on top of the total that is current at `now`. */
  ghost predicate GrantFits(c: Config, notional: real, now: int, offset: int) {
    c.settings.maxDailyNotionalUsd.Some? && notional >= 0.0
    ==> View(c, now, offset).dailyNotionalUsd + notional <= c.settings.maxDailyNotionalUsd.value
  }

  ghost predicate BudgetInvariant(cs: Configs, g: Grants, now: int, offset: int) {
    && (forall id :: id in cs ==> WithinBudget(cs[id]))
    && (forall id :: id in cs && id in g ==> GrantFits(cs[id], g[id], now, offset))
  }

  lemma GrantFitsLater(c: Config, notional: real, now: int, later: int, offset: int)
    requires now <= later && WithinBudget(c) && GrantFits(c, notional, now, offset)
    ensures GrantFits(c, notional, later, offset)
  {
    ViewLater(c, now, later, offset);
  }

  lemma CheckOneBudget(c: Config, input: CheckInput, now: int, offset: int)
    requires WithinBudget(c)
    ensures var (after, result) := CheckOne(c, input, now, offset);
      && WithinBudget(after)
      && after.settings == c.settings
      && View(after, now, offset).dailyNotionalUsd == View(c, now, offset).dailyNotionalUsd
      && (result.Allowed() ==> GrantFits(after, input.notionalUsd, now, offset))
  {
    MidnightFacts(now, now, offset);
  }

  lemma {:induction false} CheckAllBudget(cs: Configs, found: seq<ConfigId>, input: CheckInput, now: int, offset: int)
    requires forall id :: id in cs ==> WithinBudget(cs[id])
    requires forall i :: 0 <= i < |found| ==> found[i] in cs
    requires forall i, j :: 0 <= i < j < |found| ==> found[i] != found[j]
    ensures var (after, result) := CheckAll(cs, found, input, now, offset);
      && (forall id :: id in cs ==> WithinBudget(after[id]))
      && (forall id :: id in cs && id !in found ==> after[id] == cs[id])
      && (result.Allowed() ==> forall i :: 0 <= i < |found| ==> GrantFits(after[found[i]], input.notionalUsd, now, offset))
  {
    hide View, CheckOne, WithinBudget, GrantFits;
    if found != [] {
      var front, id := found[..|found| - 1], found[|found| - 1];
      CheckAllBudget(cs, front, input, now, offset);
      var (before, soFar) := CheckAll(cs, front, input, now, offset);
      CheckOneBudget(before[id], input, now, offset);
      var (after, result) := CheckAll(cs, found, input, now, offset);
      if result.Allowed() {
        forall i | 0 <= i < |found|
          ensures GrantFits(after[found[i]], input.notionalUsd, now, offset)
        {
          if i < |front| {
            assert found[i] == front[i] && found[i] != id;
          }
        }
      }
    }
  }

  lemma OneConfigBudget(c: Config, notional: real, kill: KillSwitch, now: int, offset: int)
    requires WithinBudget(c)
    ensures WithinBudget(RecordFailureOne(c, now)) && WithinBudget(c.(kill := kill))
    ensures View(RecordFailureOne(c, now), now, offset).dailyNotionalUsd == View(c, now, offset).dailyNotionalUsd
    ensures View(c.(kill := kill), now, offset).dailyNotionalUsd == View(c, now, offset).dailyNotionalUsd
    ensures notional >= 0.0 && GrantFits(c, notional, now, offset)
            ==> WithinBudget(RecordSuccessOne(c, notional, now, offset))
  {
    MidnightFacts(now, now, offset);
  }

  lemma BudgetStep(cs: Configs, g: Grants, e: Event, offset: int)
    requires BudgetInvariant(cs, g, e.now, offset)
    requires e.RecordSuccess? && e.id in cs ==> e.id in g && g[e.id] == e.notionalUsd && e.notionalUsd >= 0.0
    requires e.CreateConfig? ==> WithinBudget(e.initial)
    ensures BudgetInvariant(Step(cs, e, offset).0, GrantsAfter(cs, g, e, offset), e.now, offset)
  {
    hide View, CheckAll, RecordFailureOne, RecordSuccessOne, Applicable, WithinBudget;
    var now := e.now;
    match e {
      case Check(input, _) =>
        ApplicableIds(cs.Keys, input);
        CheckAllBudget(cs, Applicable(cs.Keys, input), input, now, offset);
      case CreateConfig(_, _, _, _) =>
      case RecordSuccess(id, notional, _) =>
        if id in cs { OneConfigBudget(cs[id], notional, cs[id].kill, now, offset); }
      case RecordFailure(id, _) =>
        if id in cs {
          OneConfigBudget(cs[id], 0.0, cs[id].kill, now, offset);
          OperationsKeepSettings(cs[id], 0.0, now, offset);
        }
      case TriggerKillSwitch(id, triggeredBy, reason, _) =>
        if id in cs { OneConfigBudget(cs[id], 0.0, KillSwitch(true, Some(now), Some(triggeredBy), Some(reason)), now, offset); }
      case ResetKillSwitch(id, _) =>
        if id in cs { OneConfigBudget(cs[id], 0.0, KillSwitch(false, None, None, None), now, offset); }
    }
  }

  ghost predicate ClockMonotone(es: seq<Event>) {
    forall i, j :: 0 <= i < j < |es| ==> es[i].now <= es[j].now
  }

  /**
   As long as every success spends exactly what the latest check of that configuration allowed, no daily total
   ever leaves the range from zero to its limit, midnight resets between check and success included.
   */
  lemma {:induction false} DailyBudgetHolds(cs: Configs, g: Grants, es: seq<Event>, clock: int, offset: int)
    requires BudgetInvariant(cs, g, clock, offset)
    requires ClockMonotone(es) && (es != [] ==> clock <= es[0].now)
    requires Disciplined(cs, g, es, offset)
    ensures AllWithinBudget(StateAfter(cs, es, offset))
    decreases |es|
  {
    if es == [] {
      BudgetMeansWithin(cs, g, clock, offset);
    } else {
      DisciplinedStep(cs, g, es, offset);
      hide View, Step, GrantsAfter, BudgetInvariant, AllWithinBudget, StateAfter, Disciplined, ClockMonotone;
      BudgetLater(cs, g, clock, es[0].now, offset);
      BudgetStep(cs, g, es[0], offset);
      DailyBudgetHolds(Step(cs, es[0], offset).0, GrantsAfter(cs, g, es[0], offset), es[1..], es[0].now, offset);
    }
  }

  lemma DisciplinedStep(cs: Configs, g: Grants, es: seq<Event>, offset: int)
    requires es != [] && ClockMonotone(es) && Disciplined(cs, g, es, offset)
    ensures var e := es[0];
      && (e.RecordSuccess? && e.id in cs ==> e.id in g && g[e.id] == e.notionalUsd && e.notionalUsd >= 0.0)
      && (e.CreateConfig? ==> WithinBudget(e.initial))
      && Disciplined(Step(cs, e, offset).0, GrantsAfter(cs, g, e, offset), es[1..], offset)
      && StateAfter(cs, es, offset) == StateAfter(Step(cs, e, offset).0, es[1..], offset)
    ensures ClockMonotone(es[1..]) && (es[1..] != [] ==> es[0].now <= es[1..][0].now)
  {
    hide Step, GrantsAfter, WithinBudget;
  }

  ghost predicate AllWithinBudget(cs: Configs) {
    forall id :: id in cs ==> WithinBudget(cs[id])
  }

  lemma BudgetMeansWithin(cs: Configs, g: Grants, now: int, offset: int)
    requires BudgetInvariant(cs, g, now, offset)
    ensures AllWithinBudget(cs)
  {
    hide WithinBudget;
  }

  lemma BudgetLater(cs: Configs, g: Grants, now: int, later: int, offset: int)
    requires now <= later && BudgetInvariant(cs, g, now, offset)
    ensures BudgetInvariant(cs, g, later, offset)
  {
    hide View, WithinBudget, GrantFits;
    forall id | id in cs && id in g
      ensures GrantFits(cs[id], g[id], later, offset)
    {
      GrantFitsLater(cs[id], g[id], now, later, offset);
    }
  }
}
