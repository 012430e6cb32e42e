/** When to compact: pressure on the model's context window (crates/context/src/policy.rs). */
module WindowPolicy {
  import opened Arithmetic
  import opened Common

  const U16_MAX: nat := 0xFFFF
  const U64_MAX: nat := 0xFFFF_FFFF_FFFF_FFFF
  const U128_MAX: nat := 0xFFFF_FFFF_FFFF_FFFF_FFFF_FFFF_FFFF_FFFF

  type U8 = n: nat | n <= 0xFF
  type U16 = n: nat | n <= 0xFFFF
  type U64 = n: nat | n <= 0xFFFF_FFFF_FFFF_FFFF

  datatype Policy = Policy(
    safeWindowPercent: U8,
    softLimitPercent: U8,
    hardLimitPercent: U8,
    targetPercent: U8,
    emergencyTargetPercent: U8,
    reservedOutputTokens: U64)

  /** What `validate` accepts. */
  predicate Accepted(p: Policy) {
    && p.emergencyTargetPercent <= p.targetPercent < p.softLimitPercent < p.hardLimitPercent <= 100
    && p.safeWindowPercent != 0
    && p.safeWindowPercent <= 100
  }

  // ----- arithmetic in 128 bits

  function Capped(n: nat, max: nat): nat {
    if n > max then max else n
  }

  function SaturatingMul(a: nat, b: nat): nat {
    Capped(a * b, U128_MAX)
  }

  function SaturatingAdd(a: nat, b: nat): nat {
    Capped(a + b, U128_MAX)
  }

  function SaturatingSub(a: nat, b: nat): nat {
    if a < b then 0 else a - b
  }

  function PercentageOf(value: U64, percent: U8): U64 {
    Capped(value * percent / 100, U64_MAX)
  }

  function RatioPercentCeil(value: U64, budget: U64): U16
    requires budget > 0
  {
    var numerator := SaturatingMul(value, 100);
    var rounded := SaturatingAdd(numerator, SaturatingSub(budget, 1)) / budget;
    Capped(rounded, U16_MAX)
  }

  // ----- decisions

  datatype Estimate = Estimate(tokens: U64, exact: bool)

  datatype Reason = UnknownContextWindow | ReservedOutputExceedsSafeWindow

  datatype Budget = Budget(window: U64, inputBudget: U64, projected: Estimate, pressure: U16)

  datatype Decision =
    | Proceed(budget: Budget)
    | ScheduleBackgroundCompaction(budget: Budget)
    | CompactBeforeRequest(budget: Budget)
    | Unavailable(projected: Estimate, reason: Reason)

  function Evaluate(p: Policy, window: Option<U64>, projected: Estimate): Decision {
    if window.None? then Unavailable(projected, UnknownContextWindow)
    else
      var safe := PercentageOf(window.value, p.safeWindowPercent);
      if safe < p.reservedOutputTokens || safe - p.reservedOutputTokens == 0
      then Unavailable(projected, ReservedOutputExceedsSafeWindow)
      else
        var inputBudget := safe - p.reservedOutputTokens;
        var pressure := RatioPercentCeil(projected.tokens, inputBudget);
        var budget := Budget(window.value, inputBudget, projected, pressure);
        if pressure >= p.hardLimitPercent then CompactBeforeRequest(budget)
        else if pressure >= p.softLimitPercent then ScheduleBackgroundCompaction(budget)
        else Proceed(budget)
  }

  function TargetTokens(p: Policy, inputBudget: U64, emergency: bool): U64 {
    PercentageOf(inputBudget, if emergency then p.emergencyTargetPercent else p.targetPercent)
  }

  // ----- what the arithmetic means

  /** At no machine word does the 128-bit arithmetic overflow or saturate. */
  lemma NoOverflow(value: U64, percent: U8, budget: U64)
    ensures value * percent <= U128_MAX
    ensures SaturatingMul(value, 100) == value * 100
    ensures SaturatingAdd(value * 100, SaturatingSub(budget, 1)) == value * 100 + SaturatingSub(budget, 1)
  {
    MulMonotone(value, U64_MAX, percent);
    MulMonotone(percent, 0xFF, U64_MAX);
  }

  /** A share of at most all of something is rounded down and within it. */
  lemma PercentageBounds(value: U64, percent: U8)
    requires percent <= 100
    ensures PercentageOf(value, percent) * 100 <= value * percent
    ensures PercentageOf(value, percent) <= value
  {
    FloorBounds(value * percent, 100);
    MulMonotone(percent, 100, value);
    assert value * percent == percent * value;
  }

  /** Rounding up reaches `p` exactly when the exact ratio exceeds `p - 1`. */
  lemma CeilReaches(n: nat, d: nat, p: nat)
    requires d > 0 && p > 0
    ensures (n + (d - 1)) / d >= p <==> n > (p - 1) * d
  {
    var q := (n + (d - 1)) / d;
    FloorBounds(n + (d - 1), d);
    assert p * d == (p - 1) * d + d;
    if q >= p {
      MulMonotone(p, q, d);
    } else {
      MulStrict(q, p, d);
    }
  }

  /** Pressure reaches p percent exactly when a hundred times the tokens exceed (p - 1) budgets. */
  lemma PressureReaches(tokens: U64, budget: U64, p: nat)
    requires budget > 0 && 1 <= p <= U16_MAX
    ensures RatioPercentCeil(tokens, budget) >= p <==> 100 * tokens > (p - 1) * budget
  {
    NoOverflow(tokens, 0, budget);
    CeilReaches(tokens * 100, budget, p);
  }

  // ----- the policy

  /** Whether a budget exists does not depend on the tokens; what is budgeted and what is reserved for
      output fit in the window together. */
  lemma BudgetFits(p: Policy, window: U64, projected: Estimate)
    requires Accepted(p)
    ensures
      var decision := Evaluate(p, Some(window), projected);
      && (decision.Unavailable? <==> PercentageOf(window, p.safeWindowPercent) <= p.reservedOutputTokens)
      && (!decision.Unavailable? ==>
            && decision.budget.inputBudget > 0
            && decision.budget.inputBudget + p.reservedOutputTokens <= window
            && decision.budget.window == window
            && decision.budget.projected == projected)
  {
    PercentageBounds(window, p.safeWindowPercent);
  }

  /** The thresholds in exact arithmetic. */
  lemma DecisionThresholds(p: Policy, window: U64, projected: Estimate)
    requires Accepted(p) && !Evaluate(p, Some(window), projected).Unavailable?
    ensures
      var decision := Evaluate(p, Some(window), projected);
      var budget := decision.budget.inputBudget;
      && (decision.CompactBeforeRequest? <==> 100 * projected.tokens > (p.hardLimitPercent - 1) * budget)
      && (decision.Proceed? <==> 100 * projected.tokens <= (p.softLimitPercent - 1) * budget)
  {
    var budget := Evaluate(p, Some(window), projected).budget.inputBudget;
    PressureReaches(projected.tokens, budget, p.hardLimitPercent);
    PressureReaches(projected.tokens, budget, p.softLimitPercent);
    MulMonotone(p.softLimitPercent - 1, p.hardLimitPercent - 1, budget);
  }

  /** Compacting to a target, normal or emergency, is enough: what is at or below it may proceed. */
  lemma TargetsProceed(p: Policy, window: U64, before: Estimate, after: Estimate, emergency: bool)
    requires Accepted(p) && !Evaluate(p, Some(window), before).Unavailable?
    requires after.tokens <= TargetTokens(p, Evaluate(p, Some(window), before).budget.inputBudget, emergency)
    ensures Evaluate(p, Some(window), after).Proceed?
  {
    var budget := Evaluate(p, Some(window), before).budget.inputBudget;
    ShareBelow(after.tokens, budget, if emergency then p.emergencyTargetPercent else p.targetPercent, p.softLimitPercent);
    DecisionThresholds(p, window, after);
  }

  lemma ShareBelow(tokens: U64, budget: U64, percent: U8, limit: U8)
    requires percent < limit <= 100 && tokens <= PercentageOf(budget, percent)
    ensures 100 * tokens <= (limit - 1) * budget
  {
    PercentageBounds(budget, percent);
    MulMonotone(percent, limit - 1, budget);
    assert budget * percent == percent * budget;
  }

  function Urgency(d: Decision): nat {
    match d
    case Proceed(_) => 0
    case ScheduleBackgroundCompaction(_) => 1
    case CompactBeforeRequest(_) => 2
    case Unavailable(_, _) => 0
  }

  /** More tokens never give a milder decision. */
  lemma DecisionsMonotone(p: Policy, window: Option<U64>, few: Estimate, many: Estimate)
    requires Accepted(p) && few.tokens <= many.tokens
    ensures Evaluate(p, window, few).Unavailable? <==> Evaluate(p, window, many).Unavailable?
    ensures Urgency(Evaluate(p, window, few)) <= Urgency(Evaluate(p, window, many))
  {
    if window.Some? && !Evaluate(p, window, few).Unavailable? {
      DecisionThresholds(p, window.value, few);
      DecisionThresholds(p, window.value, many);
    }
  }

  // ----- exact shares

  /** A policy is refused exactly when a share is no percentage, or the limits and targets are out of order. */
  lemma RefusedIff(p: Policy)
    ensures !Accepted(p)
            <==> || p.safeWindowPercent == 0 || p.safeWindowPercent > 100 || p.hardLimitPercent > 100
                 || p.softLimitPercent >= p.hardLimitPercent || p.targetPercent >= p.softLimitPercent
                 || p.emergencyTargetPercent > p.targetPercent
  {
  }

  /** A share is the largest number within the exact one. */
  lemma ShareIsExact(value: U64, percent: U8)
    requires percent <= 100
    ensures 100 * PercentageOf(value, percent) <= value * percent < 100 * (PercentageOf(value, percent) + 1)
  {
    FloorBounds(value * percent, 100);
    PercentageBounds(value, percent);
    MulMonotone(percent, 100, value);
    assert value * percent == percent * value;
    assert value * percent / 100 <= value;
  }

  /** The target is that share of the budget, the smaller one in an emergency. */
  lemma TargetIsExact(p: Policy, inputBudget: U64)
    requires Accepted(p)
    ensures
      var target := TargetTokens(p, inputBudget, false);
      100 * target <= inputBudget * p.targetPercent < 100 * (target + 1)
    ensures
      var target := TargetTokens(p, inputBudget, true);
      100 * target <= inputBudget * p.emergencyTargetPercent < 100 * (target + 1)
  {
    ShareIsExact(inputBudget, p.targetPercent);
    ShareIsExact(inputBudget, p.emergencyTargetPercent);
  }

  /** There is no budget exactly when the window is unknown, or its safe share leaves nothing beside the
      reserved output; otherwise the budget is all that it leaves. */
  lemma BudgetIsExact(p: Policy, window: Option<U64>, projected: Estimate)
    requires Accepted(p)
    ensures Evaluate(p, window, projected) == Unavailable(projected, UnknownContextWindow) <==> window.None?
    ensures Evaluate(p, window, projected) == Unavailable(projected, ReservedOutputExceedsSafeWindow)
            <==> window.Some? && window.value * p.safeWindowPercent < 100 * (p.reservedOutputTokens + 1)
    ensures
      var decision := Evaluate(p, window, projected);
      !decision.Unavailable? ==>
        && window.Some? && decision.budget.window == window.value && decision.budget.projected == projected
        && var whole := decision.budget.inputBudget + p.reservedOutputTokens;
           100 * whole <= window.value * p.safeWindowPercent < 100 * (whole + 1)
  {
    if window.Some? {
      ShareIsExact(window.value, p.safeWindowPercent);
    }
  }

  /** The pressure shown is the percentage rounded up, as far as 16 bits go. */
  lemma PressureIsExact(p: Policy, window: U64, projected: Estimate, percent: nat)
    requires Accepted(p) && !Evaluate(p, Some(window), projected).Unavailable? && 1 <= percent <= U16_MAX
    ensures
      var budget := Evaluate(p, Some(window), projected).budget;
      budget.pressure >= percent <==> 100 * projected.tokens > (percent - 1) * budget.inputBudget
  {
    PressureReaches(projected.tokens, Evaluate(p, Some(window), projected).budget.inputBudget, percent);
  }

  /** More tokens are never let through where fewer are not, and never compacted later. */
  lemma MoreIsNeverMilder(p: Policy, window: Option<U64>, few: Estimate, many: Estimate)
    requires Accepted(p) && few.tokens <= many.tokens
    ensures Evaluate(p, window, many).Proceed? ==> Evaluate(p, window, few).Proceed?
    ensures Evaluate(p, window, few).CompactBeforeRequest? ==> Evaluate(p, window, many).CompactBeforeRequest?
  {
    DecisionsMonotone(p, window, few, many);
  }
}
