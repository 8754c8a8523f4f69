/** The allocator's target split between the carry and treasury sleeves. */
module AllocatorPolicy {
  import opened Basics

  datatype Policy = Policy(
    baselineCarryPct: real,
    minimumTreasuryPct: real,
    maximumCarryPct: real,
    degradedCarryCapPct: real,
    elevatedMismatchCarryCapPct: real,
    reserveShortfallCarryCapPct: real,
    weakCarryCarryCapPct: real,
    carryOpportunityScoreFloor: real,
    carryOpportunityScoreStrong: real)

  datatype Lifecycle = Starting | Ready | DegradedRuntime | Paused | Stopped

  /** `coverage` is absent when the reserve coverage is not a finite number. */
  datatype System = System(
    runtimeHalted: bool,
    lifecycle: Lifecycle,
    criticalMismatchCount: nat,
    openMismatchCount: nat,
    recentReconciliationIssues: nat,
    degradedReasonCount: nat,
    reserveShortfallUsd: real,
    coverage: Option<real>,
    carryOpportunityScore: real)

  datatype SleeveStatus = Active | ThrottledSleeve | DegradedSleeve | BlockedSleeve
  datatype Throttle = Normal | Throttled | DeRisk | BlockedThrottle

  datatype Sleeve = Sleeve(minAllocationPct: real, maxAllocationPct: real, status: SleeveStatus, throttle: Throttle, healthy: bool)

  datatype Pressure = NormalPressure | ElevatedPressure | HighPressure

  function PressureFromInput(s: System): Pressure {
    if s.runtimeHalted || s.lifecycle == Paused || s.lifecycle == Stopped || s.criticalMismatchCount > 0
       || s.reserveShortfallUsd > 0.0 then HighPressure
    else if s.lifecycle == DegradedRuntime || s.openMismatchCount >= 3 || s.recentReconciliationIssues > 0
            || s.degradedReasonCount > 0 then ElevatedPressure
    else NormalPressure
  }

  function ClampPct(value: real, min: real, max: real): real {
    Max(min, Min(max, value))
  }

  /** The sleeves that get the weak-carry cap; 'throttled' is not among the values the source asks for. */
  predicate IsRestricted(carry: Sleeve) {
    || carry.status == DegradedSleeve || carry.status == BlockedSleeve
    || carry.throttle == DeRisk || carry.throttle == BlockedThrottle
    || !carry.healthy
  }

  // ---- Reference: every cap that applies, the lowest of them, then the uplift ----

  /** The lowest of the baseline, the shortfall cap and the pressure cap. */
  function PressedCap(system: System, policy: Policy): real {
    var shortfall := if system.reserveShortfallUsd > 0.0
                     then Min(policy.baselineCarryPct, policy.reserveShortfallCarryCapPct) else policy.baselineCarryPct;
    match PressureFromInput(system)
    case HighPressure => Min(shortfall, policy.degradedCarryCapPct)
    case ElevatedPressure => Min(shortfall, policy.elevatedMismatchCarryCapPct)
    case NormalPressure => shortfall
  }

  /** The sleeve is restricted, or the opportunity is weak. */
  predicate WeakCapApplies(system: System, carry: Sleeve, policy: Policy) {
    IsRestricted(carry) || system.carryOpportunityScore < policy.carryOpportunityScoreFloor
  }

  function LowestCap(system: System, carry: Sleeve, policy: Policy): real {
    var pressed := PressedCap(system, policy);
    if WeakCapApplies(system, carry, policy) then Min(pressed, policy.weakCarryCarryCapPct) else pressed
  }

  predicate IsUplifted(system: System, policy: Policy) {
    && system.carryOpportunityScore >= policy.carryOpportunityScoreFloor
    && system.carryOpportunityScore >= policy.carryOpportunityScoreStrong
    && PressureFromInput(system) == NormalPressure
  }

  function DesiredCarry(system: System, carry: Sleeve, policy: Policy): real {
    var capped := LowestCap(system, carry, policy);
    if IsUplifted(system, policy) then Min(policy.maximumCarryPct, capped + 5.0) else capped
  }

  function TreasuryFloor(system: System, policy: Policy): real {
    Max(policy.minimumTreasuryPct,
        if system.coverage.Some? && system.coverage.value < 100.0 then policy.minimumTreasuryPct + 10.0
        else policy.minimumTreasuryPct)
  }

  function CarryMax(carry: Sleeve, policy: Policy): real {
    Min(carry.maxAllocationPct, policy.maximumCarryPct)
  }

  function TreasuryMin(system: System, treasury: Sleeve, policy: Policy): real {
    Max(treasury.minAllocationPct, TreasuryFloor(system, policy))
  }

  /** Carry, then treasury as the rest, then carry as the rest of that; each clamped to its bounds. */
  function Targets(system: System, carry: Sleeve, treasury: Sleeve, policy: Policy): (t: (real, real)) {
    var desired := ClampPct(DesiredCarry(system, carry, policy), carry.minAllocationPct, CarryMax(carry, policy));
    var treasuryTarget := ClampPct(100.0 - desired, TreasuryMin(system, treasury, policy), treasury.maxAllocationPct);
    (ClampPct(100.0 - treasuryTarget, carry.minAllocationPct, CarryMax(carry, policy)), treasuryTarget)
  }

  method Evaluate(system: System, carry: Sleeve, treasury: Sleeve, policy: Policy) returns (carryTargetPct: real, treasuryTargetPct: real)
    ensures (carryTargetPct, treasuryTargetPct) == Targets(system, carry, treasury, policy)
  {
    var pressureLevel := PressureFromInput(system);
    carryTargetPct := policy.baselineCarryPct;
    var treasuryFloorPct := Max(policy.minimumTreasuryPct,
      if system.coverage.Some? && system.coverage.value < 100.0 then policy.minimumTreasuryPct + 10.0 else policy.minimumTreasuryPct);
    if system.reserveShortfallUsd > 0.0 {
      carryTargetPct := Min(carryTargetPct, policy.reserveShortfallCarryCapPct);
    }
    if pressureLevel == HighPressure {
      carryTargetPct := Min(carryTargetPct, policy.degradedCarryCapPct);
    } else if pressureLevel == ElevatedPressure {
      carryTargetPct := Min(carryTargetPct, policy.elevatedMismatchCarryCapPct);
    }
    if carry.status == DegradedSleeve || carry.status == BlockedSleeve || carry.throttle == DeRisk
       || carry.throttle == BlockedThrottle || !carry.healthy {
      carryTargetPct := Min(carryTargetPct, policy.weakCarryCarryCapPct);
    }
    if system.carryOpportunityScore < policy.carryOpportunityScoreFloor {
      carryTargetPct := Min(carryTargetPct, policy.weakCarryCarryCapPct);
    } else if system.carryOpportunityScore >= policy.carryOpportunityScoreStrong && pressureLevel == NormalPressure {
      carryTargetPct := Min(policy.maximumCarryPct, carryTargetPct + 5.0);
    }
    var carryMax := Min(carry.maxAllocationPct, policy.maximumCarryPct);
    carryTargetPct := ClampPct(carryTargetPct, carry.minAllocationPct, carryMax);
    treasuryTargetPct := ClampPct(100.0 - carryTargetPct, Max(treasury.minAllocationPct, treasuryFloorPct), treasury.maxAllocationPct);
    carryTargetPct := ClampPct(100.0 - treasuryTargetPct, carry.minAllocationPct, carryMax);
  }

  /** Some split of 100 lies within both sleeves' bounds. */
  ghost predicate SplitExists(system: System, carry: Sleeve, treasury: Sleeve, policy: Policy) {
    exists c: real :: Admits(c, system, carry, treasury, policy)
  }

  ghost predicate Admits(c: real, system: System, carry: Sleeve, treasury: Sleeve, policy: Policy) {
    && carry.minAllocationPct <= c <= CarryMax(carry, policy)
    && TreasuryMin(system, treasury, policy) <= 100.0 - c <= treasury.maxAllocationPct
  }

  ghost predicate GoodSplit(t: (real, real), system: System, carry: Sleeve, treasury: Sleeve, policy: Policy) {
    && t.0 + t.1 == 100.0
    && carry.minAllocationPct <= t.0 <= CarryMax(carry, policy)
    && TreasuryMin(system, treasury, policy) <= t.1 <= treasury.maxAllocationPct
  }

  /** The targets sum to 100 within all bounds exactly when the bounds admit any split at all. */
  lemma TargetsSplitIff(system: System, carry: Sleeve, treasury: Sleeve, policy: Policy)
    ensures GoodSplit(Targets(system, carry, treasury, policy), system, carry, treasury, policy)
      <==> SplitExists(system, carry, treasury, policy)
  {
    hide DesiredCarry, TreasuryFloor;
    var t := Targets(system, carry, treasury, policy);
    if GoodSplit(t, system, carry, treasury, policy) {
      assert Admits(t.0, system, carry, treasury, policy);
    } else if c: real :| Admits(c, system, carry, treasury, policy) {
      assert false;
    }
  }

  // ---- The carry share asked for, from the inputs ----

  /** Halted, paused or stopped, with a critical mismatch, or short of reserves. */
  predicate IsAlarming(s: System) {
    s.runtimeHalted || s.lifecycle in {Paused, Stopped} || s.criticalMismatchCount >= 1 || s.reserveShortfallUsd > 0.0
  }

  /** Degraded, with three open mismatches, or with any recent issue or degraded reason. */
  predicate IsStrained(s: System) {
    s.lifecycle == DegradedRuntime || s.openMismatchCount >= 3 || s.recentReconciliationIssues >= 1 || s.degradedReasonCount >= 1
  }

  /** The lowest of the caps that the state of the system calls for. */
  lemma PressedCapIff(system: System, policy: Policy, x: real)
    ensures x <= PressedCap(system, policy) <==>
      && x <= policy.baselineCarryPct
      && (system.reserveShortfallUsd > 0.0 ==> x <= policy.reserveShortfallCarryCapPct)
      && (IsAlarming(system) ==> x <= policy.degradedCarryCapPct)
      && (IsStrained(system) && !IsAlarming(system) ==> x <= policy.elevatedMismatchCarryCapPct)
  {
  }

  /** The share asked for: the baseline under all caps that apply, and five points more when all is well and carry is strong. */
  lemma DesiredCarryIff(system: System, carry: Sleeve, policy: Policy, x: real)
    ensures var score := system.carryOpportunityScore;
      var weak := score < policy.carryOpportunityScoreFloor
        || carry.status in {DegradedSleeve, BlockedSleeve} || carry.throttle in {DeRisk, BlockedThrottle} || !carry.healthy;
      var uplift := score >= policy.carryOpportunityScoreFloor && score >= policy.carryOpportunityScoreStrong
        && !IsAlarming(system) && !IsStrained(system);
      x <= DesiredCarry(system, carry, policy) <==>
        if uplift then
          x <= policy.maximumCarryPct && x <= policy.baselineCarryPct + 5.0 && (weak ==> x <= policy.weakCarryCarryCapPct + 5.0)
        else x <= PressedCap(system, policy) && (weak ==> x <= policy.weakCarryCarryCapPct)
  {
  }

  /** The treasury floor is ten points higher while reserves are not fully covered. */
  lemma TreasuryTargetFloor(system: System, carry: Sleeve, treasury: Sleeve, policy: Policy)
    ensures TreasuryMin(system, treasury, policy)
      == Max(treasury.minAllocationPct,
             policy.minimumTreasuryPct + if system.coverage.GetOr(100.0) < 100.0 then 10.0 else 0.0)
    ensures TreasuryMin(system, treasury, policy) <= Targets(system, carry, treasury, policy).1
  {
  }

  // ---- The weak-carry cap ----

  /**
   Exactly when the carry share asked for stays at or below the weak-carry cap: outside the uplift, when the sleeve
   is restricted, the opportunity is weak, or another cap is as low; under the uplift the cap is no limit at all.
   */
  lemma WeakCapHoldsIff(system: System, carry: Sleeve, policy: Policy)
    ensures DesiredCarry(system, carry, policy) <= policy.weakCarryCarryCapPct
      <==> if IsUplifted(system, policy)
           then policy.maximumCarryPct <= policy.weakCarryCarryCapPct
                || PressedCap(system, policy) + 5.0 <= policy.weakCarryCarryCapPct
           else WeakCapApplies(system, carry, policy) || PressedCap(system, policy) <= policy.weakCarryCarryCapPct
  {
    hide PressedCap, PressureFromInput;
  }

  /** What the last two clamps make of a carry share. */
  function Settled(share: real, system: System, carry: Sleeve, treasury: Sleeve, policy: Policy): real {
    ClampPct(100.0 - ClampPct(100.0 - share, TreasuryMin(system, treasury, policy), treasury.maxAllocationPct),
             carry.minAllocationPct, CarryMax(carry, policy))
  }

  /** The lowest and the highest carry target that the bounds of both sleeves let through. */
  function LeastTarget(system: System, carry: Sleeve, treasury: Sleeve, policy: Policy): real {
    Settled(carry.minAllocationPct, system, carry, treasury, policy)
  }

  function GreatestTarget(system: System, carry: Sleeve, treasury: Sleeve, policy: Policy): real {
    Settled(Max(carry.minAllocationPct, CarryMax(carry, policy)), system, carry, treasury, policy)
  }

  /** The three clamps are one, for all bounds, contradictory ones included. */
  lemma TargetIsClamped(system: System, carry: Sleeve, treasury: Sleeve, policy: Policy)
    ensures Targets(system, carry, treasury, policy).0
         == ClampPct(DesiredCarry(system, carry, policy),
                     LeastTarget(system, carry, treasury, policy), GreatestTarget(system, carry, treasury, policy))
    ensures LeastTarget(system, carry, treasury, policy) <= GreatestTarget(system, carry, treasury, policy)
  {
    ThreeClamps(DesiredCarry(system, carry, policy), carry.minAllocationPct, CarryMax(carry, policy),
                TreasuryMin(system, treasury, policy), treasury.maxAllocationPct);
    hide DesiredCarry, CarryMax, TreasuryMin, ClampPct, Max;
  }

  function SettledWithin(share: real, carryMin: real, carryMax: real, treasuryMin: real, treasuryMax: real): real {
    ClampPct(100.0 - ClampPct(100.0 - share, treasuryMin, treasuryMax), carryMin, carryMax)
  }

  lemma ThreeClamps(desired: real, carryMin: real, carryMax: real, treasuryMin: real, treasuryMax: real)
    ensures var least := SettledWithin(carryMin, carryMin, carryMax, treasuryMin, treasuryMax);
      var greatest := SettledWithin(Max(carryMin, carryMax), carryMin, carryMax, treasuryMin, treasuryMax);
      && SettledWithin(ClampPct(desired, carryMin, carryMax), carryMin, carryMax, treasuryMin, treasuryMax)
         == ClampPct(desired, least, greatest)
      && least <= greatest
  {
  }

  /** When the bounds admit a split, the extremes are the bounds of one sleeve met with those of the other. */
  lemma ExtremesOfASplit(system: System, carry: Sleeve, treasury: Sleeve, policy: Policy)
    requires SplitExists(system, carry, treasury, policy)
    ensures LeastTarget(system, carry, treasury, policy) == Max(carry.minAllocationPct, 100.0 - treasury.maxAllocationPct)
    ensures GreatestTarget(system, carry, treasury, policy)
         == Min(CarryMax(carry, policy), 100.0 - TreasuryMin(system, treasury, policy))
  {
    hide CarryMax, TreasuryMin;
    var c: real :| Admits(c, system, carry, treasury, policy);
  }

  /**
   Exactly when the carry target that is returned stays at or below the weak-carry cap: the bounds of the sleeves do
   not force more, and they either allow no more or the share asked for is capped.
   */
  lemma TargetIsCappedIff(system: System, carry: Sleeve, treasury: Sleeve, policy: Policy)
    ensures Targets(system, carry, treasury, policy).0 <= policy.weakCarryCarryCapPct
      <==> LeastTarget(system, carry, treasury, policy) <= policy.weakCarryCarryCapPct
           && (GreatestTarget(system, carry, treasury, policy) <= policy.weakCarryCarryCapPct
               || if IsUplifted(system, policy)
                  then policy.maximumCarryPct <= policy.weakCarryCarryCapPct
                       || PressedCap(system, policy) + 5.0 <= policy.weakCarryCarryCapPct
                  else WeakCapApplies(system, carry, policy) || PressedCap(system, policy) <= policy.weakCarryCarryCapPct)
  {
    TargetIsClamped(system, carry, treasury, policy);
    WeakCapHoldsIff(system, carry, policy);
    hide Targets, DesiredCarry, LeastTarget, GreatestTarget, IsUplifted, WeakCapApplies, PressedCap;
  }

  /** Policies that differ only in the baseline and in the caps for shortfall and pressure. */
  predicate SameRules(a: Policy, b: Policy) {
    b == a.(baselineCarryPct := b.baselineCarryPct, reserveShortfallCarryCapPct := b.reserveShortfallCarryCapPct,
            degradedCarryCapPct := b.degradedCarryCapPct, elevatedMismatchCarryCapPct := b.elevatedMismatchCarryCapPct)
  }

  lemma SameRulesFacts(a: Policy, b: Policy, system: System, carry: Sleeve, treasury: Sleeve)
    requires SameRules(a, b)
    ensures a.weakCarryCarryCapPct == b.weakCarryCarryCapPct && a.maximumCarryPct == b.maximumCarryPct
    ensures IsUplifted(system, a) == IsUplifted(system, b) && WeakCapApplies(system, carry, a) == WeakCapApplies(system, carry, b)
    ensures LeastTarget(system, carry, treasury, a) == LeastTarget(system, carry, treasury, b)
    ensures GreatestTarget(system, carry, treasury, a) == GreatestTarget(system, carry, treasury, b)
  {
    hide PressureFromInput, ClampPct;
  }

  /** The same policy with baseline and caps far above the weak-carry cap. */
  function Generous(policy: Policy): Policy {
    var top := policy.weakCarryCarryCapPct + 1.0;
    policy.(baselineCarryPct := top, reserveShortfallCarryCapPct := top, degradedCarryCapPct := top,
            elevatedMismatchCarryCapPct := top)
  }

  /** No target exceeds the configured maximum unless the sleeve's minimum does. */
  lemma GreatestIsConfigured(system: System, carry: Sleeve, treasury: Sleeve, policy: Policy)
    ensures GreatestTarget(system, carry, treasury, policy)
         <= Max(LeastTarget(system, carry, treasury, policy), policy.maximumCarryPct)
  {
    hide TreasuryMin;
  }

  /**
   The weak-carry cap holds of the returned target, whatever the baseline and the other caps are, exactly when the
   bounds of the sleeves allow it and either force it or the cap applies outside the uplift. Being throttled does not
   appear in the condition: it has no effect of its own.
   */
  lemma CappedUnderEveryPolicyIff(system: System, carry: Sleeve, treasury: Sleeve, policy: Policy)
    ensures (forall other: Policy :: SameRules(policy, other)
              ==> Targets(system, carry, treasury, other).0 <= policy.weakCarryCarryCapPct)
      <==> LeastTarget(system, carry, treasury, policy) <= policy.weakCarryCarryCapPct
           && (GreatestTarget(system, carry, treasury, policy) <= policy.weakCarryCarryCapPct
               || (WeakCapApplies(system, carry, policy) && !IsUplifted(system, policy)))
  {
    var generous := Generous(policy);
    assert SameRules(policy, generous);
    assert PressedCap(system, generous) == policy.weakCarryCarryCapPct + 1.0;
    GreatestIsConfigured(system, carry, treasury, policy);
    hide Targets, LeastTarget, GreatestTarget, IsUplifted, WeakCapApplies, PressedCap, SameRules, Generous;
    forall other: Policy | SameRules(policy, other)
      ensures Targets(system, carry, treasury, other).0 <= policy.weakCarryCarryCapPct
        <==> LeastTarget(system, carry, treasury, policy) <= policy.weakCarryCarryCapPct
             && (GreatestTarget(system, carry, treasury, policy) <= policy.weakCarryCarryCapPct
                 || if IsUplifted(system, policy)
                    then policy.maximumCarryPct <= policy.weakCarryCarryCapPct
                         || PressedCap(system, other) + 5.0 <= policy.weakCarryCarryCapPct
                    else WeakCapApplies(system, carry, policy) || PressedCap(system, other) <= policy.weakCarryCarryCapPct)
    {
      SameRulesFacts(policy, other, system, carry, treasury);
      TargetIsCappedIff(system, carry, treasury, other);
    }
  }

  /** The default policy of the source. */
  const DEFAULT_POLICY: Policy := Policy(55.0, 35.0, 65.0, 25.0, 35.0, 15.0, 20.0, 0.35, 0.7)

  function CalmSystem(score: real): System {
    System(false, Ready, 0, 0, 0, 0, 0.0, Some(100.0), score)
  }

  /** A throttled sleeve in a calm system keeps the whole baseline of 55 under the default policy, where the cap is 20. */
  lemma ThrottledSleeveIsNotCapped(treasury: Sleeve)
    requires treasury.minAllocationPct <= 45.0 <= treasury.maxAllocationPct
    ensures var carry := Sleeve(0.0, 100.0, ThrottledSleeve, Throttled, true);
      Targets(CalmSystem(0.5), carry, treasury, DEFAULT_POLICY) == (55.0, 45.0)
  {
  }

  /** A degraded sleeve with a strong opportunity is capped and then uplifted past its cap. */
  lemma UpliftPassesTheWeakCap(treasury: Sleeve)
    requires treasury.minAllocationPct <= 75.0 <= treasury.maxAllocationPct
    ensures var carry := Sleeve(0.0, 100.0, DegradedSleeve, DeRisk, true);
      Targets(CalmSystem(0.9), carry, treasury, DEFAULT_POLICY) == (25.0, 75.0)
  {
  }

  /** A degraded, unhealthy sleeve is asked to stay at its cap of 20, and the treasury's maximum of 60 puts it back to 40. */
  lemma TreasuryBoundPassesTheWeakCap()
    ensures var carry := Sleeve(0.0, 65.0, DegradedSleeve, DeRisk, false);
      var treasury := Sleeve(35.0, 60.0, Active, Normal, true);
      && DesiredCarry(CalmSystem(0.5), carry, DEFAULT_POLICY) == 20.0
      && Targets(CalmSystem(0.5), carry, treasury, DEFAULT_POLICY) == (40.0, 60.0)
  {
  }

  // ---- Monotonicity ----

  function LifecycleRank(l: Lifecycle): int {
    match l
    case Starting => 0
    case Ready => 0
    case DegradedRuntime => 1
    case Paused => 2
    case Stopped => 2
  }

  function StatusRank(s: SleeveStatus): int {
    match s
    case Active => 0
    case ThrottledSleeve => 1
    case DegradedSleeve => 2
    case BlockedSleeve => 3
  }

  function ThrottleRank(t: Throttle): int {
    match t
    case Normal => 0
    case Throttled => 1
    case DeRisk => 2
    case BlockedThrottle => 3
  }

  /** `b` is at least as bad as `a` in every input. */
  ghost predicate Worse(a: System, carryA: Sleeve, b: System, carryB: Sleeve) {
    && (a.runtimeHalted ==> b.runtimeHalted)
    && LifecycleRank(a.lifecycle) <= LifecycleRank(b.lifecycle)
    && a.criticalMismatchCount <= b.criticalMismatchCount
    && a.openMismatchCount <= b.openMismatchCount
    && a.recentReconciliationIssues <= b.recentReconciliationIssues
    && a.degradedReasonCount <= b.degradedReasonCount
    && a.reserveShortfallUsd <= b.reserveShortfallUsd
    && (a.coverage.Some? ==> b.coverage.Some? && b.coverage.value <= a.coverage.value)
    && b.carryOpportunityScore <= a.carryOpportunityScore
    && StatusRank(carryA.status) <= StatusRank(carryB.status)
    && ThrottleRank(carryA.throttle) <= ThrottleRank(carryB.throttle)
    && (carryB.healthy ==> carryA.healthy)
    && carryA.minAllocationPct == carryB.minAllocationPct && carryA.maxAllocationPct == carryB.maxAllocationPct
  }

  function PressureRank(p: Pressure): int {
    match p
    case NormalPressure => 0
    case ElevatedPressure => 1
    case HighPressure => 2
  }

  lemma PressureGrows(a: System, carryA: Sleeve, b: System, carryB: Sleeve)
    requires Worse(a, carryA, b, carryB)
    ensures PressureRank(PressureFromInput(a)) <= PressureRank(PressureFromInput(b))
  {
  }

  lemma LowestCapFalls(a: System, carryA: Sleeve, b: System, carryB: Sleeve, policy: Policy)
    requires Worse(a, carryA, b, carryB) && policy.degradedCarryCapPct <= policy.elevatedMismatchCarryCapPct
    ensures LowestCap(b, carryB, policy) <= LowestCap(a, carryA, policy)
  {
    PressureGrows(a, carryA, b, carryB);
    assert IsRestricted(carryA) ==> IsRestricted(carryB);
    hide PressureFromInput;
  }

  /** Worsening any pressure, shortfall, coverage, throttle or score input never raises the final carry target. */
  lemma CarryTargetIsMonotone(a: System, carryA: Sleeve, b: System, carryB: Sleeve, treasury: Sleeve, policy: Policy)
    requires Worse(a, carryA, b, carryB)
    requires policy.degradedCarryCapPct <= policy.elevatedMismatchCarryCapPct
    requires policy.carryOpportunityScoreFloor <= policy.carryOpportunityScoreStrong
    ensures Targets(b, carryB, treasury, policy).0 <= Targets(a, carryA, treasury, policy).0
  {
    LowestCapFalls(a, carryA, b, carryB, policy);
    PressureGrows(a, carryA, b, carryB);
    hide LowestCap, PressureFromInput;
    assert TreasuryFloor(a, policy) <= TreasuryFloor(b, policy);
  }
}
