/**
 The guardrail engine as a state machine on values: what each operation does to one configuration,
 an eager machine whose timers fire on their own, and the proof that the lazy engine refines it.
 Times are milliseconds; days are the local days of a fixed offset from UTC.
 */
module GuardrailModel {
  import opened Basics

  const DAY_MS: int := 86400000

  datatype Scope = Global | Venue | Sleeve | Strategy

  /** Ids are built from scope type, scope id and creation time. */
  datatype ConfigId = ConfigId(scopeType: Scope, scopeId: string, createdAt: int)

  datatype PartialFillAction = Continue | Block | Rollback

  datatype Settings = Settings(
    maxSingleActionNotionalUsd: Option<real>,
    maxDailyNotionalUsd: Option<real>,
    minActionNotionalUsd: Option<real>,
    maxConcurrentExecutions: Option<int>,
    circuitBreakerEnabled: bool,
    maxFailuresBeforeBreaker: int,
    circuitBreakerResetMinutes: real,
    killSwitchEnabled: bool,
    partialFillAction: PartialFillAction,
    minFillPctRequired: real)

  datatype KillSwitch = KillSwitch(triggered: bool, triggeredAt: Option<int>, triggeredBy: Option<string>, reason: Option<string>)

  datatype Config = Config(
    settings: Settings,
    kill: KillSwitch,
    failureCount: int,
    lastFailureAt: Option<int>,
    dailyNotionalUsd: real,
    dailyResetAt: int)

  type Configs = map<ConfigId, Config>

  datatype CheckInput = CheckInput(
    venueId: Option<string>,
    sleeveId: Option<string>,
    strategyId: Option<string>,
    notionalUsd: real,
    isExecution: bool)

  /** A violation with the details the engine reports; every one of them blocks. */
  datatype Violation =
    | KillSwitchActive(kill: KillSwitch)
    | CircuitBreakerOpen(failureCount: int, resetAt: Option<real>)
    | AboveMaximum(attempted: real, limit: real)
    | BelowMinimum(attempted: real, limit: real)
    | AboveDailyLimit(currentDaily: real, attempted: real, limit: real)

  datatype CheckResult = CheckResult(violations: seq<Violation>, warnings: seq<int>) {
    predicate Allowed() {
      violations == []
    }
  }

  // ---- Timers ----

  /** The first local midnight after `t`. */
  function NextMidnight(t: int, offset: int): int {
    ((t + offset) / DAY_MS + 1) * DAY_MS - offset
  }

  predicate WindowElapsed(settings: Settings, lastFailureAt: Option<int>, now: int) {
    lastFailureAt.Some? && (now - lastFailureAt.value) as real / 60000.0 > settings.circuitBreakerResetMinutes
  }

  function ResetTime(settings: Settings, lastFailureAt: Option<int>): Option<real> {
    if lastFailureAt.None? then None
    else Some(lastFailureAt.value as real + settings.circuitBreakerResetMinutes * 60.0 * 1000.0)
  }

  // ---- The lazy engine, one configuration at a time ----

  predicate BreakerTripped(c: Config, now: int) {
    && c.settings.circuitBreakerEnabled
    && c.failureCount >= c.settings.maxFailuresBeforeBreaker
    && !WindowElapsed(c.settings, c.lastFailureAt, now)
  }

  /** Asking whether the breaker is open forgets the failures of an elapsed window. */
  function AfterBreakerTest(c: Config, now: int): Config {
    if
      && c.settings.circuitBreakerEnabled
      && c.failureCount >= c.settings.maxFailuresBeforeBreaker
      && WindowElapsed(c.settings, c.lastFailureAt, now)
    then c.(failureCount := 0)
    else c
  }

  function AfterDailyReset(c: Config, now: int, offset: int): Config {
    if now >= NextMidnight(c.dailyResetAt, offset) then c.(dailyNotionalUsd := 0.0, dailyResetAt := now) else c
  }

  function SizeViolations(settings: Settings, notional: real): seq<Violation> {
    (if settings.maxSingleActionNotionalUsd.Some? && notional > settings.maxSingleActionNotionalUsd.value
     then [AboveMaximum(notional, settings.maxSingleActionNotionalUsd.value)] else [])
    + (if settings.minActionNotionalUsd.Some? && notional < settings.minActionNotionalUsd.value
       then [BelowMinimum(notional, settings.minActionNotionalUsd.value)] else [])
  }

  function DailyViolations(settings: Settings, daily: real, notional: real): seq<Violation> {
    if settings.maxDailyNotionalUsd.Some? && daily + notional > settings.maxDailyNotionalUsd.value
    then [AboveDailyLimit(daily, notional, settings.maxDailyNotionalUsd.value)] else []
  }

  function Warnings(settings: Settings, input: CheckInput): seq<int> {
    if settings.maxConcurrentExecutions.Some? && settings.maxConcurrentExecutions.value != 0 && input.isExecution
    then [settings.maxConcurrentExecutions.value] else []
  }

  predicate Halted(c: Config) {
    c.settings.killSwitchEnabled && c.kill.triggered
  }

  function CheckOne(c: Config, input: CheckInput, now: int, offset: int): (Config, CheckResult) {
    if Halted(c) then (c, CheckResult([KillSwitchActive(c.kill)], []))
    else
      var tested := AfterBreakerTest(c, now);
      if BreakerTripped(c, now) then
        (tested, CheckResult([CircuitBreakerOpen(c.failureCount, ResetTime(c.settings, c.lastFailureAt))], []))
      else
        var reset := if c.settings.maxDailyNotionalUsd.Some? then AfterDailyReset(tested, now, offset) else tested;
        (reset,
         CheckResult(
           SizeViolations(c.settings, input.notionalUsd)
           + DailyViolations(c.settings, reset.dailyNotionalUsd, input.notionalUsd),
           Warnings(c.settings, input)))
  }

  function RecordFailureOne(c: Config, now: int): Config {
    var base := if WindowElapsed(c.settings, c.lastFailureAt, now) then 0 else c.failureCount;
    c.(failureCount := base + 1, lastFailureAt := Some(now))
  }

  function RecordSuccessOne(c: Config, notional: real, now: int, offset: int): Config {
    var cleared := if c.failureCount > 0 then c.(failureCount := 0, lastFailureAt := None) else c;
    var reset := AfterDailyReset(cleared, now, offset);
    reset.(dailyNotionalUsd := reset.dailyNotionalUsd + notional)
  }

  /** An enabled breaker needs at least one failure to open. */
  predicate Sound(settings: Settings) {
    settings.circuitBreakerEnabled ==> settings.maxFailuresBeforeBreaker >= 1
  }

  // ---- The eager machine ----

  /** Failures are forgotten, and the daily total returns to zero, at the moment their timers expire. */
  datatype Eager = Eager(
    settings: Settings,
    kill: KillSwitch,
    failureCount: int,
    lastFailureAt: Option<int>,
    dailyNotionalUsd: real,
    resetsAt: int)

  function Tick(e: Eager, now: int, offset: int): Eager {
    var failures := if WindowElapsed(e.settings, e.lastFailureAt, now)
                    then e.(failureCount := 0, lastFailureAt := None) else e;
    if now >= e.resetsAt then failures.(dailyNotionalUsd := 0.0, resetsAt := NextMidnight(now, offset)) else failures
  }

  /** What a lazy configuration stands for at a given time. */
  function View(c: Config, now: int, offset: int): Eager {
    Tick(Eager(c.settings, c.kill, c.failureCount, c.lastFailureAt, c.dailyNotionalUsd,
               NextMidnight(c.dailyResetAt, offset)), now, offset)
  }

  function EagerCheck(e: Eager, input: CheckInput): CheckResult {
    if e.settings.killSwitchEnabled && e.kill.triggered then CheckResult([KillSwitchActive(e.kill)], [])
    else if e.settings.circuitBreakerEnabled && e.failureCount >= e.settings.maxFailuresBeforeBreaker then
      CheckResult([CircuitBreakerOpen(e.failureCount, ResetTime(e.settings, e.lastFailureAt))], [])
    else
      CheckResult(
        SizeViolations(e.settings, input.notionalUsd)
        + DailyViolations(e.settings, e.dailyNotionalUsd, input.notionalUsd),
        Warnings(e.settings, input))
  }

  function EagerFailure(e: Eager, now: int): Eager {
    e.(failureCount := e.failureCount + 1, lastFailureAt := Some(now))
  }

  function EagerSuccess(e: Eager, notional: real): Eager {
    (if e.failureCount > 0 then e.(failureCount := 0, lastFailureAt := None) else e)
    .(dailyNotionalUsd := e.dailyNotionalUsd + notional)
  }

  // ---- Refinement ----

  lemma MidnightFacts(a: int, b: int, offset: int)
    requires a <= b
    ensures a < NextMidnight(a, offset) <= NextMidnight(b, offset)
    ensures b < NextMidnight(a, offset) ==> NextMidnight(b, offset) == NextMidnight(a, offset)
  {
  }

  /** Timers that fire twice fire once: time only has to be observed when it matters. */
  lemma TickTwice(e: Eager, now: int, later: int, offset: int)
    requires now <= later
    ensures Tick(Tick(e, now, offset), later, offset) == Tick(e, later, offset)
  {
    MidnightFacts(now, later, offset);
  }

  /** A check answers as the eager machine does, and what the configuration stands for does not change. */
  lemma CheckRefines(c: Config, input: CheckInput, now: int, offset: int)
    requires Sound(c.settings)
    ensures var (after, result) := CheckOne(c, input, now, offset);
      && result == EagerCheck(View(c, now, offset), input)
      && View(after, now, offset) == View(c, now, offset)
  {
    MidnightFacts(now, now, offset);
  }

  lemma FailureRefines(c: Config, now: int, offset: int)
    ensures View(RecordFailureOne(c, now), now, offset)
         == Tick(EagerFailure(View(c, now, offset), now), now, offset)
    ensures RecordFailureOne(c, now).failureCount == View(c, now, offset).failureCount + 1
  {
    MidnightFacts(now, now, offset);
  }

  lemma SuccessRefines(c: Config, notional: real, now: int, offset: int)
    ensures View(RecordSuccessOne(c, notional, now, offset), now, offset)
         == Tick(EagerSuccess(View(c, now, offset), notional), now, offset)
    ensures RecordSuccessOne(c, notional, now, offset).dailyNotionalUsd
         == View(c, now, offset).dailyNotionalUsd + notional
  {
    MidnightFacts(now, now, offset);
  }
}
