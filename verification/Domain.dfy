/**
 Value types shared by every engine mode, and the trade-management arithmetic
 of src/domain/trade_management.py and src/domain/signals/builder.py.
 Prices and R multiples are `real`; times are integer UTC milliseconds.
 */
module Domain {

  datatype Option<+T> = None | Some(value: T)

  datatype Direction = LONG | SHORT

  datatype Candle = Candle(timestamp: int, open: real, high: real, low: real, close: real)

  /** The check `normalize_candle` makes on finite prices. */
  predicate WellFormed(c: Candle) {
    c.low <= c.high
  }

  predicate AllWellFormed(cs: seq<Candle>) {
    forall c <- cs :: WellFormed(c)
  }

  predicate IncreasingTimes(cs: seq<Candle>) {
    forall i, j :: 0 <= i < j < |cs| ==> cs[i].timestamp < cs[j].timestamp
  }

  /** The immutable part of a trade signal: its levels, risk and birth time. */
  datatype Plan = Plan(
    direction: Direction, entry: real, stop: real, tp1: real, tp2: real,
    fullRr: real, riskPips: real, createdAt: int, triggeredAt: int)

  /** The per-pair settings the lifecycle reads. */
  datatype Profile = Profile(
    expiryHours: real, moveSlToBe: bool, tp1TriggerPct: real, tp1ClosePct: real)

  /** Python's `int(x)`: truncation toward zero. */
  function Truncate(x: real): int {
    if x >= 0.0 then x.Floor else -((-x).Floor)
  }

  function ExpiryMs(prof: Profile): int {
    Truncate(prof.expiryHours * 3600000.0)
  }

  // ----- Interval boundaries -----

  /** The open time of the last bar of interval `ms` that has closed by `close`. */
  function LastClosedOpen(close: int, ms: int): int
    requires ms > 0
  {
    close / ms * ms - ms
  }

  /** Bars of interval `ms` begin and end at its multiples. */
  function Boundary(b: int, ms: int): int {
    b * ms
  }

  /** A bar of interval `ms` opening at `t` is over by some interval boundary at or before `close`. */
  ghost predicate OverBy(t: int, ms: int, close: int) {
    exists b: int :: t + ms <= Boundary(b, ms) <= close
  }

  lemma OverByIff(t: int, ms: int, close: int)
    requires ms > 0
    ensures t <= LastClosedOpen(close, ms) <==> OverBy(t, ms, close)
    ensures t % ms == 0 ==> (OverBy(t, ms, close) <==> t + ms <= close)
  {
    LastBoundary(close, ms);
    if OverBy(t, ms, close) {
      var b: int :| t + ms <= Boundary(b, ms) <= close;
      EarlierBoundary(close, ms, b);
    }
    if t % ms == 0 {
      NextBoundary(t, ms);
    }
  }

  /** The last boundary at or before `close` is where the last closed bar ends. */
  lemma LastBoundary(close: int, ms: int)
    requires ms > 0
    ensures LastClosedOpen(close, ms) + ms == Boundary(close / ms, ms) <= close < Boundary(close / ms, ms) + ms
  {}

  lemma EarlierBoundary(close: int, ms: int, b: int)
    requires ms > 0 && Boundary(b, ms) <= close
    ensures Boundary(b, ms) <= Boundary(close / ms, ms)
  {
    var d := b - close / ms - 1;
    assert b * ms == close / ms * ms + ms + d * ms;
    assert d >= 0 ==> d * ms >= 0;
    LastBoundary(close, ms);
  }

  lemma NextBoundary(t: int, ms: int)
    requires ms > 0 && t % ms == 0
    ensures t + ms == Boundary(t / ms + 1, ms)
  {}

  // ----- Direction-neutral price comparisons -----

  /** `a` is no worse than `b` for a trade in direction `d`. */
  predicate AtLeastAsGood(d: Direction, a: real, b: real) {
    match d
    case LONG => a >= b
    case SHORT => a <= b
  }

  predicate Better(d: Direction, a: real, b: real) {
    !AtLeastAsGood(d, b, a)
  }

  /** The candle's extreme in the trade's favour, and against it. */
  function Best(d: Direction, c: Candle): real {
    match d
    case LONG => c.high
    case SHORT => c.low
  }

  function Worst(d: Direction, c: Candle): real {
    match d
    case LONG => c.low
    case SHORT => c.high
  }

  predicate TouchesTarget(d: Direction, c: Candle, level: real) {
    AtLeastAsGood(d, Best(d, c), level)
  }

  predicate TouchesStop(d: Direction, c: Candle, level: real) {
    AtLeastAsGood(d, level, Worst(d, c))
  }

  /** The stop is on the losing side and TP1 lies strictly between entry and TP2. */
  predicate OrderedLevels(plan: Plan) {
    && Better(plan.direction, plan.entry, plan.stop)
    && Better(plan.direction, plan.tp1, plan.entry)
    && Better(plan.direction, plan.tp2, plan.tp1)
  }

  // ----- Trade-management arithmetic -----

  function PctFraction(value: real): real {
    value / 100.0
  }

  function Abs(x: real): real {
    if x < 0.0 then -x else x
  }

  function Tp1Level(d: Direction, entry: real, tp2: real, tp1TriggerPct: real): real {
    match d
    case LONG => entry + Abs(tp2 - entry) * PctFraction(tp1TriggerPct)
    case SHORT => entry - Abs(tp2 - entry) * PctFraction(tp1TriggerPct)
  }

  function Tp1BookedRr(fullRr: real, prof: Profile): real {
    fullRr * PctFraction(prof.tp1TriggerPct) * PctFraction(prof.tp1ClosePct)
  }

  function ProtectedBreakevenRr(fullRr: real, prof: Profile): real {
    Tp1BookedRr(fullRr, prof)
  }

  function Tp2WeightedRr(fullRr: real, prof: Profile): real {
    var closeFraction := PctFraction(prof.tp1ClosePct);
    var tp1Rr := fullRr * PctFraction(prof.tp1TriggerPct);
    tp1Rr * closeFraction + fullRr * (1.0 - closeFraction)
  }

  /** The R multiple of a fill at `price` (`_rr_at_price`). */
  function RrAtPrice(plan: Plan, price: real): real
    requires plan.riskPips != 0.0
  {
    match plan.direction
    case LONG => (price - plan.entry) / plan.riskPips
    case SHORT => (plan.entry - price) / plan.riskPips
  }

  // ----- Signal construction -----

  /** The gates and levels of `build_signal`, after the entry price is chosen. */
  datatype Setup = Setup(
    direction: Direction, entry: real, wickTip: real, tpLevel: real, zoneHeight: real,
    stopBufferPct: real, maxSlZoneMult: real, minRr: real, maxRr: real,
    openAt: int, closeAt: int)

  function StopOf(su: Setup): real {
    var buffer := su.wickTip * su.stopBufferPct;
    if su.direction.SHORT? then su.wickTip + buffer else su.wickTip - buffer
  }

  function RewardPerRisk(reward: real, risk: real): real
    requires risk != 0.0
  {
    reward / risk
  }

  /** The target, moved in to what the cap allows. */
  function CappedTarget(su: Setup, risk: real, rr: real): real {
    if !(su.maxRr > 0.0 && rr > su.maxRr) then su.tpLevel
    else if su.direction.LONG? then su.entry + su.maxRr * risk
    else su.entry - su.maxRr * risk
  }

  function BuildPlan(su: Setup, prof: Profile, inSession: bool): (r: Option<Plan>)
  {
    var stop := StopOf(su);
    if su.direction.SHORT? && stop <= su.entry then None
    else if su.direction.LONG? && stop >= su.entry then None
    else
      var risk := Abs(su.entry - stop);
      if risk < 0.00000001 then None
      else if su.zoneHeight > 0.0 && risk > su.zoneHeight * su.maxSlZoneMult then None
      else if su.direction.SHORT? && su.tpLevel >= su.entry then None
      else if su.direction.LONG? && su.tpLevel <= su.entry then None
      else
        var rr := RewardPerRisk(Abs(su.tpLevel - su.entry), risk);
        if rr < su.minRr then None
        else
          var tp2 := CappedTarget(su, risk, rr);
          var finalRr := if su.maxRr > 0.0 && rr > su.maxRr then su.maxRr else rr;
          if !inSession then None
          else Some(Plan(su.direction, su.entry, stop,
                         Tp1Level(su.direction, su.entry, tp2, prof.tp1TriggerPct), tp2,
                         finalRr, risk, su.openAt, su.closeAt))
  }

  /** `x` is at least `m` times `y`. */
  predicate Reaches(x: real, m: real, y: real) {
    x >= m * y
  }

  /** The gates of `build_signal`, for a stop at `stop`: its side and distance, the target's side, the reward, the session. */
  predicate Passes(su: Setup, stop: real, inSession: bool) {
    && Better(su.direction, su.entry, stop) && Abs(su.entry - stop) >= 0.00000001
    && (su.zoneHeight > 0.0 ==> Abs(su.entry - stop) <= su.zoneHeight * su.maxSlZoneMult)
    && Better(su.direction, su.tpLevel, su.entry)
    && Reaches(Abs(su.tpLevel - su.entry), su.minRr, Abs(su.entry - stop))
    && inSession
  }

  /** The buffer lies beyond the wick, away from the entry. */
  function StopBeyond(su: Setup): real {
    match su.direction
    case LONG => su.wickTip * (1.0 - su.stopBufferPct)
    case SHORT => su.wickTip * (1.0 + su.stopBufferPct)
  }

  /** A setup becomes a plan exactly when it passes the gates; its stop, dates and direction are the setup's. */
  lemma BecomesPlanIff(su: Setup, prof: Profile, inSession: bool)
    ensures var r := BuildPlan(su, prof, inSession);
            && (r.Some? <==> Passes(su, StopBeyond(su), inSession))
            && (r.Some? ==>
                  && r.value.direction == su.direction && r.value.entry == su.entry && r.value.stop == StopBeyond(su)
                  && r.value.createdAt == su.openAt && r.value.triggeredAt == su.closeAt)
  {
    hide StopOf, StopBeyond, RewardPerRisk, CappedTarget, Tp1Level, Reaches;
    StopLiesBeyond(su);
    var risk, reward := Abs(su.entry - StopOf(su)), Abs(su.tpLevel - su.entry);
    if risk > 0.0 {
      RatioReaches(reward, risk, su.minRr);
    }
  }

  lemma StopLiesBeyond(su: Setup)
    ensures StopOf(su) == StopBeyond(su)
  {
    assert su.wickTip * (1.0 - su.stopBufferPct) == su.wickTip - su.wickTip * su.stopBufferPct;
    assert su.wickTip * (1.0 + su.stopBufferPct) == su.wickTip + su.wickTip * su.stopBufferPct;
  }

  lemma RatioReaches(reward: real, risk: real, m: real)
    requires risk > 0.0
    ensures RewardPerRisk(reward, risk) >= m <==> Reaches(reward, m, risk)
  {
    var q := reward / risk;
    assert q * risk == reward;
    if q < m { assert (m - q) * risk > 0.0; }
    if q >= m { assert (q - m) * risk >= 0.0; }
  }

  /** The target is the zone's, unless that pays more than the cap; then it pays exactly the cap. */
  lemma TargetIsCapped(su: Setup, prof: Profile, inSession: bool)
    requires BuildPlan(su, prof, inSession).Some?
    ensures var plan := BuildPlan(su, prof, inSession).value;
            && plan.riskPips > 0.0
            && (if su.maxRr > 0.0 && RrAtPrice(plan, su.tpLevel) > su.maxRr then RrAtPrice(plan, plan.tp2) == su.maxRr
                else plan.tp2 == su.tpLevel)
  {
    var plan := BuildPlan(su, prof, inSession).value;
    BuiltPlanSides(su, prof, inSession);
    BuiltPlansAreOrdered(su, prof, inSession);
    var risk, reward := plan.riskPips, Abs(su.tpLevel - su.entry);
    ScaledDistance(reward, risk);
    RrOfSignedMove(plan, su.tpLevel, reward / risk);
  }

  /** Dividing by the risk that scaled a distance gives the multiple back. */
  lemma ScaledDistance(x: real, risk: real)
    requires risk > 0.0
    ensures x * risk / risk == x
    ensures x > 0.0 ==> x * risk > 0.0
    ensures x >= 0.0 ==> x / risk >= 0.0
    ensures x / risk * risk == x
  {
  }

  lemma FractionOfDistance(dist: real, f: real)
    requires dist > 0.0
    ensures 0.0 < dist * f < dist <==> 0.0 < f < 1.0
  {
    assert dist * f - dist == dist * (f - 1.0);
    if f >= 1.0 { assert dist * (f - 1.0) >= 0.0; }
    if f < 1.0 { assert dist * (1.0 - f) > 0.0; }
    if f <= 0.0 { assert dist * (-f) >= 0.0; }
    if f > 0.0 { assert dist * f > 0.0; }
  }

  /** The facts about an accepted plan that do not involve products of its levels. */
  lemma BuiltPlanSides(su: Setup, prof: Profile, inSession: bool)
    requires BuildPlan(su, prof, inSession).Some?
    ensures var plan := BuildPlan(su, prof, inSession).value;
            && Better(plan.direction, plan.entry, plan.stop)
            && Better(plan.direction, plan.tp2, plan.entry)
            && plan.riskPips == Abs(plan.entry - plan.stop) > 0.0
            && plan.tp1 == Tp1Level(plan.direction, plan.entry, plan.tp2, prof.tp1TriggerPct)
            && plan.fullRr * plan.riskPips == Abs(plan.tp2 - plan.entry)
            && (su.maxRr > 0.0 ==> plan.fullRr <= su.maxRr)
  {
    var plan := BuildPlan(su, prof, inSession).value;
    ScaledDistance(Abs(su.tpLevel - su.entry), plan.riskPips);
    ScaledDistance(su.maxRr, plan.riskPips);
  }

  /**
   A plan that passes every gate has its levels in order exactly when the TP1
   trigger percentage lies strictly between 0 and 100; the reward that `fullRr`
   names is the reward that TP2 pays, and the stop costs one R.
   */
  lemma BuiltPlansAreOrdered(su: Setup, prof: Profile, inSession: bool)
    requires BuildPlan(su, prof, inSession).Some?
    ensures var plan := BuildPlan(su, prof, inSession).value;
            && (OrderedLevels(plan) <==> 0.0 < prof.tp1TriggerPct < 100.0)
            && plan.riskPips > 0.0
            && RrAtPrice(plan, plan.stop) == -1.0
            && RrAtPrice(plan, plan.tp2) == plan.fullRr > 0.0
            && (su.maxRr > 0.0 ==> plan.fullRr <= su.maxRr)
  {
    BuiltPlanSides(su, prof, inSession);
    var plan := BuildPlan(su, prof, inSession).value;
    OrderedByTrigger(plan, prof);
    PricedLevels(plan);
  }

  lemma OrderedByTrigger(plan: Plan, prof: Profile)
    requires Better(plan.direction, plan.entry, plan.stop) && Better(plan.direction, plan.tp2, plan.entry)
    requires plan.tp1 == Tp1Level(plan.direction, plan.entry, plan.tp2, prof.tp1TriggerPct)
    ensures OrderedLevels(plan) <==> 0.0 < prof.tp1TriggerPct < 100.0
  {
    var dist, f := Abs(plan.tp2 - plan.entry), PctFraction(prof.tp1TriggerPct);
    OrderedByGap(plan, dist, f);
  }

  lemma PricedLevels(plan: Plan)
    requires Better(plan.direction, plan.entry, plan.stop) && Better(plan.direction, plan.tp2, plan.entry)
    requires plan.riskPips == Abs(plan.entry - plan.stop) > 0.0
    requires plan.fullRr * plan.riskPips == Abs(plan.tp2 - plan.entry)
    ensures RrAtPrice(plan, plan.stop) == -1.0
    ensures RrAtPrice(plan, plan.tp2) == plan.fullRr > 0.0
  {
    RrOfSignedMove(plan, plan.stop, -1.0);
    RrOfSignedMove(plan, plan.tp2, plan.fullRr);
    PositiveFactor(plan.fullRr, plan.riskPips);
  }

  lemma OrderedByGap(plan: Plan, dist: real, f: real)
    requires dist > 0.0
    requires Better(plan.direction, plan.entry, plan.stop)
    requires plan.tp2 == if plan.direction.LONG? then plan.entry + dist else plan.entry - dist
    requires plan.tp1 == if plan.direction.LONG? then plan.entry + dist * f else plan.entry - dist * f
    ensures OrderedLevels(plan) <==> 0.0 < f < 1.0
  {
    var gap := dist * f;
    assert f <= 0.0 ==> gap <= 0.0;
    assert f >= 1.0 ==> gap >= dist by { FractionOfDistance(dist, f); }
    assert 0.0 < f < 1.0 ==> 0.0 < gap < dist by { FractionOfDistance(dist, f); }
  }

  lemma PositiveFactor(x: real, y: real)
    requires x * y > 0.0 && y > 0.0
    ensures x > 0.0
  {
  }

  /** A favourable move of `m` risks is worth `m` R in either direction. */
  lemma RrOfSignedMove(plan: Plan, price: real, m: real)
    requires plan.riskPips > 0.0
    requires m * plan.riskPips == if plan.direction.LONG? then price - plan.entry else plan.entry - price
    ensures RrAtPrice(plan, price) == m
  {
    ScaledDistance(m, plan.riskPips);
  }

  /**
   What the lifecycle books is what the fills pay: closing `tp1ClosePct` of the
   position at TP1 and the rest at TP2 earns `Tp2WeightedRr`; closing the rest at
   the entry instead earns `ProtectedBreakevenRr`.
   */
  lemma BookedRrIsWeightedFills(plan: Plan, prof: Profile)
    requires plan.riskPips > 0.0
    requires plan.tp1 == Tp1Level(plan.direction, plan.entry, plan.tp2, prof.tp1TriggerPct)
    requires RrAtPrice(plan, plan.tp2) == plan.fullRr
    requires Better(plan.direction, plan.tp2, plan.entry)
    ensures var f := PctFraction(prof.tp1ClosePct);
            && Tp2WeightedRr(plan.fullRr, prof)
               == f * RrAtPrice(plan, plan.tp1) + (1.0 - f) * RrAtPrice(plan, plan.tp2)
            && ProtectedBreakevenRr(plan.fullRr, prof)
               == f * RrAtPrice(plan, plan.tp1) + (1.0 - f) * RrAtPrice(plan, plan.entry)
  {
    var f, g := PctFraction(prof.tp1ClosePct), PctFraction(prof.tp1TriggerPct);
    var dist, risk := Abs(plan.tp2 - plan.entry), plan.riskPips;
    assert RrAtPrice(plan, plan.tp1) == (dist * g) / risk;
    assert plan.fullRr == dist / risk;
    DivideScaled(dist, g, risk);
    assert RrAtPrice(plan, plan.tp1) == plan.fullRr * g;
    assert RrAtPrice(plan, plan.entry) == 0.0 by { ScaledDistance(0.0, risk); }
    assert plan.fullRr * g * f == f * (plan.fullRr * g);
  }

  lemma DivideScaled(x: real, g: real, risk: real)
    requires risk > 0.0
    ensures (x * g) / risk == x / risk * g
  {
    ScaledDistance(x, risk);
    assert x / risk * risk == x;
    assert x * g == (x / risk * g) * risk;
    ScaledDistance(x / risk * g, risk);
  }
}
