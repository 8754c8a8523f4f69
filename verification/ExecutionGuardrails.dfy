/**
 The guardrail engine itself: a map of configuration records that its methods update in place, `check` included.
 Each method is proved to perform the matching step of `GuardrailRuns`.
 */
module ExecutionGuardrails {
  import opened Basics
  import opened GuardrailModel
  import opened GuardrailRuns

  /** One configuration record; the engine's helpers write its tracking fields. */
  class GuardrailConfig {
    const settings: Settings
    var kill: KillSwitch
    var failureCount: int
    var lastFailureAt: Option<int>
    var dailyNotionalUsd: real
    var dailyResetAt: int

    constructor (initial: Config)
      ensures State() == initial
    {
      settings := initial.settings;
      kill := initial.kill;
      failureCount := initial.failureCount;
      lastFailureAt := initial.lastFailureAt;
      dailyNotionalUsd := initial.dailyNotionalUsd;
      dailyResetAt := initial.dailyResetAt;
    }

    function State(): Config
      reads this
    {
      Config(settings, kill, failureCount, lastFailureAt, dailyNotionalUsd, dailyResetAt)
    }

    method IsCircuitBreakerOpen(now: int) returns (open: bool)
      modifies this`failureCount
      ensures open == BreakerTripped(old(State()), now)
      ensures State() == AfterBreakerTest(old(State()), now)
    {
      if !settings.circuitBreakerEnabled { return false; }
      if failureCount < settings.maxFailuresBeforeBreaker { return false; }
      if WindowElapsed(settings, lastFailureAt, now) {
        failureCount := 0;
        return false;
      }
      return true;
    }

    method ResetDailyNotionalIfNeeded(now: int, offset: int)
      modifies this`dailyNotionalUsd, this`dailyResetAt
      ensures State() == AfterDailyReset(old(State()), now, offset)
    {
      var resetTime := NextMidnight(dailyResetAt, offset);
      if now >= resetTime {
        dailyNotionalUsd := 0.0;
        dailyResetAt := now;
      }
    }

    /** One round of the loop in `check`: the violations and warnings this configuration contributes. */
    method CheckAgainst(input: CheckInput, now: int, offset: int) returns (violations: seq<Violation>, warnings: seq<int>)
      modifies this
      ensures (State(), CheckResult(violations, warnings)) == CheckOne(old(State()), input, now, offset)
    {
      violations, warnings := [], [];
      if settings.killSwitchEnabled && kill.triggered {
        return [KillSwitchActive(kill)], [];
      }
      if settings.circuitBreakerEnabled {
        var open := IsCircuitBreakerOpen(now);
        if open {
          return [CircuitBreakerOpen(failureCount, ResetTime(settings, lastFailureAt))], [];
        }
      }
      var notional := input.notionalUsd;
      if settings.maxSingleActionNotionalUsd.Some? && notional > settings.maxSingleActionNotionalUsd.value {
        violations := violations + [AboveMaximum(notional, settings.maxSingleActionNotionalUsd.value)];
      }
      if settings.minActionNotionalUsd.Some? && notional < settings.minActionNotionalUsd.value {
        violations := violations + [BelowMinimum(notional, settings.minActionNotionalUsd.value)];
      }
      assert violations == SizeViolations(settings, notional);
      if settings.maxDailyNotionalUsd.Some? {
        ResetDailyNotionalIfNeeded(now, offset);
        var projectedDaily := dailyNotionalUsd + notional;
        if projectedDaily > settings.maxDailyNotionalUsd.value {
          violations := violations + [AboveDailyLimit(dailyNotionalUsd, notional, settings.maxDailyNotionalUsd.value)];
        }
      }
      assert violations == SizeViolations(settings, notional) + DailyViolations(settings, dailyNotionalUsd, notional);
      if settings.maxConcurrentExecutions.Some? && settings.maxConcurrentExecutions.value != 0 && input.isExecution {
        warnings := [settings.maxConcurrentExecutions.value];
      }
    }

    method RecordFailure(now: int)
      modifies this`failureCount, this`lastFailureAt
      ensures State() == RecordFailureOne(old(State()), now)
    {
      if WindowElapsed(settings, lastFailureAt, now) {
        failureCount := 0;
      }
      failureCount := failureCount + 1;
      lastFailureAt := Some(now);
    }

    method RecordSuccess(notionalUsd: real, now: int, offset: int)
      modifies this
      ensures State() == RecordSuccessOne(old(State()), notionalUsd, now, offset)
    {
      if failureCount > 0 {
        failureCount := 0;
        lastFailureAt := None;
      }
      ResetDailyNotionalIfNeeded(now, offset);
      dailyNotionalUsd := dailyNotionalUsd + notionalUsd;
    }
  }

  class ExecutionGuardrailEngine {
    var configs: map<ConfigId, GuardrailConfig>
    const offset: int  // local time minus UTC, in milliseconds

    /** Records are not shared, and there is at most one per scope. */
    ghost predicate Valid()
      reads this
    {
      Unshared(configs)
    }

    ghost function Abs(): Configs
      reads this, configs.Values
    {
      StateOf(configs)
    }

    constructor (defaultConfig: Config, now: int, offset: int)
      ensures Valid() && this.offset == offset
      ensures fresh(configs.Values)
      ensures Abs() == map[ConfigId(Global, "default", now) := defaultConfig]
    {
      this.offset := offset;
      var config := new GuardrailConfig(defaultConfig);
      configs := map[ConfigId(Global, "default", now) := config];
    }

    method DeleteScope(scopeType: Scope, scopeId: string)
      modifies this`configs
      ensures configs == WithoutScope(old(configs), scopeType, scopeId)
    {
      var remaining := configs.Keys;
      ghost var before := configs;
      while remaining != {}
        invariant remaining <= before.Keys
        invariant forall k :: k in configs <==>
          k in before && (k in remaining || !(k.scopeType == scopeType && k.scopeId == scopeId))
        invariant forall k :: k in configs ==> configs[k] == before[k]
        decreases remaining
      {
        var k :| k in remaining;
        if k.scopeType == scopeType && k.scopeId == scopeId {
          configs := configs - {k};
        }
        remaining := remaining - {k};
      }
    }

    /** The state of a set of records, whichever engine holds them. */
    static ghost function StateOf(records: map<ConfigId, GuardrailConfig>): Configs
      reads records.Values
    {
      map id | id in records :: records[id].State()
    }

    method CreateConfig(scopeType: Scope, scopeId: string, initial: Config, now: int)
      returns (id: ConfigId, config: GuardrailConfig)
      requires Valid()
      modifies this`configs
      ensures Valid() && fresh(config)
      ensures id == ConfigId(scopeType, scopeId, now)
      ensures configs == WithoutScope(old(configs), scopeType, scopeId)[id := config]
      ensures Abs() == WithoutScope(old(Abs()), scopeType, scopeId)[id := initial]
    {
      ghost var before := configs;
      hide WithoutScope, Unshared, StateOf;
      DeleteScope(scopeType, scopeId);
      ReplacementKeepsValid(before, scopeType, scopeId);
      id := ConfigId(scopeType, scopeId, now);
      config := new GuardrailConfig(initial);
      ghost var kept := configs;
      configs := configs[id := config];
      AddKeepsUnshared(kept, id, config);
      StateOfReplacement(before, scopeType, scopeId, id, config);
    }

    static lemma AddKeepsUnshared(kept: map<ConfigId, GuardrailConfig>, id: ConfigId, config: GuardrailConfig)
      requires Unshared(kept) && config !in kept.Values
      requires forall k :: k in kept ==> !(k.scopeType == id.scopeType && k.scopeId == id.scopeId)
      ensures Unshared(kept[id := config])
    {
      assert forall k :: k in kept ==> kept[k] in kept.Values;
    }

    static ghost predicate Unshared(records: map<ConfigId, GuardrailConfig>) {
      && (forall i, j :: i in records && j in records && i != j ==> records[i] != records[j])
      && (forall i, j :: i in records && j in records && i != j
            ==> i.scopeType != j.scopeType || i.scopeId != j.scopeId)
    }

    static lemma ReplacementKeepsValid(records: map<ConfigId, GuardrailConfig>, scopeType: Scope, scopeId: string)
      requires Unshared(records)
      ensures var kept := WithoutScope(records, scopeType, scopeId);
        && Unshared(kept) && kept.Values <= records.Values
        && forall k :: k in kept ==> !(k.scopeType == scopeType && k.scopeId == scopeId)
    {
    }

    static lemma StateOfReplacement(records: map<ConfigId, GuardrailConfig>, scopeType: Scope, scopeId: string,
                                    id: ConfigId, config: GuardrailConfig)
      ensures StateOf(WithoutScope(records, scopeType, scopeId)[id := config])
           == WithoutScope(StateOf(records), scopeType, scopeId)[id := config.State()]
    {
    }

    method GetConfig(scopeType: Scope, scopeId: string) returns (found: Option<ConfigId>)
      requires Valid()
      ensures found == IdFor(configs.Keys, scopeType, scopeId)
    {
      var remaining := configs.Keys;
      while remaining != {}
        invariant remaining <= configs.Keys
        invariant forall k :: k in configs && k !in remaining ==> !(k.scopeType == scopeType && k.scopeId == scopeId)
        decreases remaining
      {
        var k :| k in remaining;
        if k.scopeType == scopeType && k.scopeId == scopeId {
          return Some(k);
        }
        remaining := remaining - {k};
      }
      return None;
    }

    method PushOptional(scopeType: Scope, scopeId: Option<string>, soFar: seq<ConfigId>) returns (found: seq<ConfigId>)
      requires Valid()
      ensures found == soFar + IdForOptional(configs.Keys, scopeType, scopeId)
    {
      found := soFar;
      if scopeId.Some? && scopeId.value != "" {
        var id := GetConfig(scopeType, scopeId.value);
        if id.Some? {
          found := found + [id.value];
        }
      }
    }

    method GetApplicableConfigs(input: CheckInput) returns (found: seq<ConfigId>)
      requires Valid()
      ensures found == Applicable(configs.Keys, input)
    {
      found := PushOptional(Global, Some("default"), []);
      found := PushOptional(Venue, input.venueId, found);
      found := PushOptional(Sleeve, input.sleeveId, found);
      found := PushOptional(Strategy, input.strategyId, found);
    }

    method CheckConfig(id: ConfigId, input: CheckInput, now: int) returns (violations: seq<Violation>, warnings: seq<int>)
      requires Valid() && id in configs
      modifies configs.Values
      ensures Valid() && configs == old(configs)
      ensures var (c, result) := CheckOne(old(Abs())[id], input, now, offset);
        Abs() == old(Abs())[id := c] && CheckResult(violations, warnings) == result
    {
      hide CheckOne;
      violations, warnings := configs[id].CheckAgainst(input, now, offset);
      assert Abs() == old(Abs())[id := configs[id].State()];
    }

    /** The loop of `check` over the configurations that apply. */
    method CheckEach(found: seq<ConfigId>, input: CheckInput, now: int) returns (result: CheckResult)
      requires Valid() && forall i :: 0 <= i < |found| ==> found[i] in configs
      modifies configs.Values
      ensures Valid() && configs == old(configs)
      ensures forall i :: 0 <= i < |found| ==> found[i] in old(Abs())
      ensures (Abs(), result) == CheckAll(old(Abs()), found, input, now, offset)
    {
      hide CheckOne, Unshared;
      assert Abs().Keys == configs.Keys;
      var violations, warnings := [], [];
      for n := 0 to |found|
        invariant Valid() && configs == old(configs)
        invariant (Abs(), CheckResult(violations, warnings)) == CheckAll(old(Abs()), found[..n], input, now, offset)
      {
        assert found[..n + 1][..n] == found[..n];
        var v, w := CheckConfig(found[n], input, now);
        violations, warnings := violations + v, warnings + w;
      }
      assert found[..|found|] == found;
      result := CheckResult(violations, warnings);
    }

    method Check(input: CheckInput, now: int) returns (result: CheckResult)
      requires Valid()
      modifies configs.Values
      ensures Valid() && configs == old(configs)
      ensures (Abs(), Verdict(result)) == Step(old(Abs()), Event.Check(input, now), offset)
    {
      var found := GetApplicableConfigs(input);
      ApplicableIds(configs.Keys, input);
      hide CheckAll, Applicable;
      assert Abs().Keys == configs.Keys;
      result := CheckEach(found, input, now);
    }

    method TriggerKillSwitch(id: ConfigId, triggeredBy: string, reason: string, now: int) returns (ok: bool)
      requires Valid()
      modifies configs.Values
      ensures Valid() && configs == old(configs)
      ensures (Abs(), KillSwitchChanged(ok)) == Step(old(Abs()), Event.TriggerKillSwitch(id, triggeredBy, reason, now), offset)
    {
      if id !in configs || !configs[id].settings.killSwitchEnabled {
        return false;
      }
      configs[id].kill := KillSwitch(true, Some(now), Some(triggeredBy), Some(reason));
      assert Abs() == old(Abs())[id := configs[id].State()];
      ok := true;
    }

    method ResetKillSwitch(id: ConfigId, now: int) returns (ok: bool)
      requires Valid()
      modifies configs.Values
      ensures Valid() && configs == old(configs)
      ensures (Abs(), KillSwitchChanged(ok)) == Step(old(Abs()), Event.ResetKillSwitch(id, now), offset)
    {
      if id !in configs {
        return false;
      }
      configs[id].kill := KillSwitch(false, None, None, None);
      assert Abs() == old(Abs())[id := configs[id].State()];
      ok := true;
    }

    method RecordFailure(id: ConfigId, now: int) returns (count: Option<int>)
      requires Valid()
      modifies configs.Values
      ensures Valid() && configs == old(configs)
      ensures (Abs(), FailureCount(count)) == Step(old(Abs()), Event.RecordFailure(id, now), offset)
    {
      if id !in configs || !configs[id].settings.circuitBreakerEnabled {
        return None;
      }
      var config := configs[id];
      config.RecordFailure(now);
      assert Abs() == old(Abs())[id := config.State()];
      count := Some(config.failureCount);
    }

    method RecordSuccess(id: ConfigId, notionalUsd: real, now: int) returns (total: Option<real>)
      requires Valid()
      modifies configs.Values
      ensures Valid() && configs == old(configs)
      ensures (Abs(), DailyTotal(total)) == Step(old(Abs()), Event.RecordSuccess(id, notionalUsd, now), offset)
    {
      if id !in configs {
        return None;
      }
      var config := configs[id];
      config.RecordSuccess(notionalUsd, now, offset);
      assert Abs() == old(Abs())[id := config.State()];
      total := Some(config.dailyNotionalUsd);
    }
  }
}
