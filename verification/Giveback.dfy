/**
 The backtest simulator of src/app/backtesting/backtest.py: plain replay, and the
 giveback-trailing variant that moves the stop after TP1 behind the best price seen.
 */
module Giveback {
  import opened Domain
  import opened Lifecycle

  datatype BacktestResult = BacktestResult(
    outcome: Outcome, realizedRr: real, closeTs: Option<int>, closePrice: Option<real>,
    hitEntryAfterTp1: bool, trailMfe: Option<real>, trailedSl: Option<real>)

  const NEVER_CLOSED := BacktestResult(TimedOut, 0.0, None, None, false, None, None)

  /** The locals of the trailing loop. */
  datatype Trail = Trail(
    currentSl: real, mfe: Option<real>, trailedSl: Option<real>, tp1Seen: bool, hitEntry: bool)

  function StartTrail(plan: Plan): Trail {
    Trail(plan.stop, None, None, false, false)
  }

  /** The trailing loop's own cutoff: `int(created_at + hours * 3_600_000)`. */
  function ExpiryCutoff(plan: Plan, prof: Profile): int {
    Truncate(plan.createdAt as real + prof.expiryHours * 3600000.0)
  }

  function TrailStop(plan: Plan, prof: Profile, tr: Trail): real {
    if tr.tp1Seen && prof.moveSlToBe then tr.currentSl else plan.stop
  }

  function TrailJudge(plan: Plan, prof: Profile, tr: Trail, c: Candle): Verdict {
    var d := plan.direction;
    if c.timestamp > ExpiryCutoff(plan, prof) then Lapse
    else if (tr.tp1Seen || TouchesTarget(d, c, plan.tp1)) && TouchesTarget(d, c, plan.tp2) then FullTarget
    else if TouchesStop(d, c, TrailStop(plan, prof, tr)) then StopOut
    else if !tr.tp1Seen && TouchesTarget(d, c, plan.tp1) then FirstTarget
    else Hold
  }

  /** The better of two prices. */
  function BetterOf(d: Direction, a: real, b: real): real {
    if AtLeastAsGood(d, a, b) then a else b
  }

  /** `trail_mfe_price or candle.high`: a recorded best price of zero counts as missing. */
  function BestSoFar(d: Direction, mfe: Option<real>, c: Candle): real {
    if mfe.Some? && mfe.value != 0.0 then BetterOf(d, mfe.value, Best(d, c)) else Best(d, c)
  }

  /** Where a trailing stop would go, given the best price so far. */
  type StopRule = real -> real

  /** The rule that gives back `pct` percent of the move from the entry to the best price. */
  function GivebackRule(plan: Plan, pct: real): StopRule {
    match plan.direction
    case LONG => best => plan.entry + (best - plan.entry) * (1.0 - pct / 100.0)
    case SHORT => best => plan.entry - (plan.entry - best) * (1.0 - pct / 100.0)
  }

  /** `_advance_giveback_sl`, for any rule that proposes stops. */
  function Advance(plan: Plan, rule: StopRule, tr: Trail, c: Candle): Trail {
    var d := plan.direction;
    var best := BestSoFar(d, tr.mfe, c);
    var proposed := rule(best);
    if Better(d, best, plan.entry) && Better(d, proposed, tr.currentSl) && Better(d, c.close, proposed) then
      tr.(currentSl := proposed, mfe := Some(best), trailedSl := Some(proposed))
    else tr.(mfe := Some(best))
  }

  function NoteEntry(plan: Plan, tr: Trail, c: Candle): Trail {
    tr.(hitEntry := tr.hitEntry || (tr.tp1Seen && TouchesStop(plan.direction, c, plan.entry)))
  }

  /** The locals after a candle that closes nothing. */
  function TrailNext(plan: Plan, prof: Profile, rule: StopRule, tr: Trail, c: Candle): Trail {
    var noted := NoteEntry(plan, tr, c);
    var seen :=
      if TrailJudge(plan, prof, tr, c).FirstTarget? then
        noted.(tp1Seen := true, currentSl := if prof.moveSlToBe then plan.entry else plan.stop)
      else noted;
    if seen.tp1Seen && prof.moveSlToBe then Advance(plan, rule, seen, c) else seen
  }

  function Max(a: real, b: real): real {
    if a >= b then a else b
  }

  function TrailClose(plan: Plan, prof: Profile, tr: Trail, c: Candle): BacktestResult
    requires plan.riskPips != 0.0
  {
    var v := TrailJudge(plan, prof, tr, c);
    var protects := tr.tp1Seen && prof.moveSlToBe;
    var protectedRr := ProtectedBreakevenRr(plan.fullRr, prof);
    var stop := TrailStop(plan, prof, tr);
    var hit := if v.Lapse? then tr.hitEntry else NoteEntry(plan, tr, c).hitEntry;
    var (outcome, rr, price) :=
      if v.Lapse? then
        if protects then (BreakEven, protectedRr, plan.entry) else (TimedOut, 0.0, c.close)
      else if v.FullTarget? then (WinFull, plan.fullRr, plan.tp2)
      else if protects then (BreakEven, Max(protectedRr, RrAtPrice(plan, stop)), stop)
      else (Loss, -1.0, plan.stop);
    BacktestResult(outcome, rr, Some(c.timestamp), Some(price), hit, tr.mfe, tr.trailedSl)
  }

  /** The trailing run: the closing bar (or the length) and the result. */
  datatype Run = Run(bar: nat, result: BacktestResult)

  function TrailRun(plan: Plan, prof: Profile, rule: StopRule, tr: Trail, cs: seq<Candle>): Run
    requires plan.riskPips != 0.0
    decreases |cs|
  {
    if cs == [] then
      Run(0, NEVER_CLOSED.(hitEntryAfterTp1 := tr.hitEntry, trailMfe := tr.mfe, trailedSl := tr.trailedSl))
    else if Terminal(TrailJudge(plan, prof, tr, cs[0])) then Run(0, TrailClose(plan, prof, tr, cs[0]))
    else
      var rest := TrailRun(plan, prof, rule, TrailNext(plan, prof, rule, tr, cs[0]), cs[1..]);
      rest.(bar := rest.bar + 1)
  }

  /** What `_simulate` makes of a replayed signal. */
  function PlainResult(p: Progress): BacktestResult {
    if p.outcome.None? then NEVER_CLOSED
    else BacktestResult(p.outcome.value, if p.realizedRr.Some? then p.realizedRr.value else 0.0,
                        p.closedAt, p.closePrice, false, None, None)
  }

  function PlainRun(plan: Plan, prof: Profile, p: Progress, cs: seq<Candle>): Run
    decreases |cs|
  {
    if cs == [] then Run(0, PlainResult(p))
    else if Closes(plan, prof, p, cs[0]) then Run(0, PlainResult(Next(plan, prof, p, cs[0])))
    else
      var rest := PlainRun(plan, prof, Next(plan, prof, p, cs[0]), cs[1..]);
      rest.(bar := rest.bar + 1)
  }

  lemma {:induction false} PlainRunIsReplay(plan: Plan, prof: Profile, p: Progress, cs: seq<Candle>)
    ensures var r := Replay(plan, prof, p, cs);
            && (AllWellFormed(cs) ==> r.Finished?)
            && (r.Finished? ==> PlainRun(plan, prof, p, cs).result == PlainResult(r.progress))
    ensures PlainRun(plan, prof, p, cs).bar <= |cs|
    decreases |cs|
  {
    if cs != [] && !Closes(plan, prof, p, cs[0]) {
      PlainRunIsReplay(plan, prof, Next(plan, prof, p, cs[0]), cs[1..]);
    }
  }

  // ----- The simulator itself -----

  /** `_advance_giveback_sl` as the source computes it, per direction. */
  method AdvanceGivebackSl(plan: Plan, pct: real, candle: Candle, currentSl: real, mfe: Option<real>, trailed: Option<real>)
    returns (sl: real, best: real, trailedSl: Option<real>)
    ensures Advance(plan, GivebackRule(plan, pct), Trail(currentSl, mfe, trailed, true, false), candle)
         == Trail(sl, Some(best), trailedSl, true, false)
  {
    var entry := plan.entry;
    if plan.direction == LONG {
      var recorded := if mfe.Some? && mfe.value != 0.0 then mfe.value else candle.high;
      best := if recorded >= candle.high then recorded else candle.high;
      var favorableMove := best - entry;
      if favorableMove <= 0.0 {
        return currentSl, best, trailed;
      }
      var proposedSl := entry + favorableMove * (1.0 - pct / 100.0);
      assert proposedSl == GivebackRule(plan, pct)(best);
      if proposedSl > currentSl && proposedSl < candle.close {
        return proposedSl, best, Some(proposedSl);
      }
      return currentSl, best, trailed;
    }
    var recorded := if mfe.Some? && mfe.value != 0.0 then mfe.value else candle.low;
    best := if recorded <= candle.low then recorded else candle.low;
    var favorableMove := entry - best;
    if favorableMove <= 0.0 {
      return currentSl, best, trailed;
    }
    var proposedSl := entry - favorableMove * (1.0 - pct / 100.0);
    assert proposedSl == GivebackRule(plan, pct)(best);
    if proposedSl < currentSl && proposedSl > candle.close {
      return proposedSl, best, Some(proposedSl);
    }
    return currentSl, best, trailed;
  }

  /** `_simulate_with_giveback_trailing`. */
  method SimulateWithGivebackTrailing(plan: Plan, prof: Profile, pct: real, future: seq<Candle>)
    returns (result: BacktestResult)
    requires plan.riskPips != 0.0
    ensures result == TrailRun(plan, prof, GivebackRule(plan, pct), StartTrail(plan), future).result
  {
    var isShort := plan.direction == SHORT;
    var entry, originalSl := plan.entry, plan.stop;
    var currentSl := originalSl;
    var trailMfe: Option<real>, trailedSl: Option<real> := None, None;
    var tp1Seen, hitEntry := false, false;
    var cutoff := ExpiryCutoff(plan, prof);

    for i := 0 to |future|
      invariant TrailRun(plan, prof, GivebackRule(plan, pct), StartTrail(plan), future).result
             == TrailRun(plan, prof, GivebackRule(plan, pct), Trail(currentSl, trailMfe, trailedSl, tp1Seen, hitEntry), future[i..]).result
    {
      var candle := future[i];
      assert future[i..][1..] == future[i + 1..];
      if candle.timestamp > cutoff {
        if tp1Seen && prof.moveSlToBe {
          return BacktestResult(BreakEven, ProtectedBreakevenRr(plan.fullRr, prof), Some(candle.timestamp),
                                Some(entry), hitEntry, trailMfe, trailedSl);
        }
        return BacktestResult(TimedOut, 0.0, Some(candle.timestamp), Some(candle.close), hitEntry, trailMfe, trailedSl);
      }
      var tp1Now := if isShort then candle.low <= plan.tp1 else candle.high >= plan.tp1;
      var tp2Now := if isShort then candle.low <= plan.tp2 else candle.high >= plan.tp2;
      var effectiveSl := if tp1Seen && prof.moveSlToBe then currentSl else originalSl;
      var slNow := if isShort then candle.high >= effectiveSl else candle.low <= effectiveSl;
      var entryNow := if isShort then candle.high >= entry else candle.low <= entry;
      if tp1Seen && entryNow {
        hitEntry := true;
      }
      if (tp1Seen || tp1Now) && tp2Now {
        return BacktestResult(WinFull, plan.fullRr, Some(candle.timestamp), Some(plan.tp2), hitEntry, trailMfe, trailedSl);
      }
      if slNow {
        if tp1Seen && prof.moveSlToBe {
          return BacktestResult(
              BreakEven, Max(ProtectedBreakevenRr(plan.fullRr, prof), RrAtPrice(plan, effectiveSl)),
              Some(candle.timestamp), Some(effectiveSl), hitEntry, trailMfe, trailedSl);
        }
        return BacktestResult(Loss, -1.0, Some(candle.timestamp), Some(originalSl), hitEntry, trailMfe, trailedSl);
      }
      if tp1Now && !tp1Seen {
        tp1Seen := true;
        currentSl := if prof.moveSlToBe then entry else originalSl;
      }
      if tp1Seen && prof.moveSlToBe {
        var sl, best, trailed := AdvanceGivebackSl(plan, pct, candle, currentSl, trailMfe, trailedSl);
        currentSl, trailMfe, trailedSl := sl, Some(best), trailed;
      }
    }
    return NEVER_CLOSED.(hitEntryAfterTp1 := hitEntry, trailMfe := trailMfe, trailedSl := trailedSl);
  }

  /** `_simulate`: trailing when a giveback is set, else the plain replay. */
  function Simulated(plan: Plan, prof: Profile, pct: real, future: seq<Candle>): Run
    requires plan.riskPips != 0.0
  {
    if pct > 0.0 then TrailRun(plan, prof, GivebackRule(plan, pct), StartTrail(plan), future) else PlainRun(plan, prof, FRESH, future)
  }

  method Simulate(plan: Plan, prof: Profile, pct: real, future: seq<Candle>)
    returns (result: BacktestResult, raised: bool)
    requires plan.riskPips != 0.0
    ensures raised <==> pct <= 0.0 && Replay(plan, prof, FRESH, future).Raised?
    ensures AllWellFormed(future) ==> !raised
    ensures !raised ==> result == Simulated(plan, prof, pct, future).result
  {
    if |future| == 0 {
      return NEVER_CLOSED, false;
    }
    PlainRunIsReplay(plan, prof, FRESH, future);
    if pct > 0.0 {
      result := SimulateWithGivebackTrailing(plan, prof, pct, future);
      return result, false;
    }
    var signal := new TradeSignal("", "", "", "", plan, FRESH);
    var replayed, bad := ReplaySignalLifecycle(signal, future, prof);
    return PlainResult(replayed.Current()), bad;
  }

  // ----- Trailing against plain replay -----

  /** The two ways of writing the expiry agree for nonnegative times. */
  lemma CutoffsAgree(plan: Plan, prof: Profile, c: Candle)
    requires plan.createdAt >= 0 && prof.expiryHours >= 0.0
    ensures c.timestamp > ExpiryCutoff(plan, prof) <==> Lapsed(plan, prof, c)
  {
    var span := prof.expiryHours * 3600000.0;
    assert (plan.createdAt as real + span).Floor == plan.createdAt + span.Floor;
  }

  /** The loop locals and the plain signal describe the same open trade. */
  predicate InStep(plan: Plan, prof: Profile, p: Progress, tr: Trail) {
    && Open(p.status) && p.outcome.None?
    && (p.status.TP1_HIT? <==> tr.tp1Seen)
    && (tr.tp1Seen && prof.moveSlToBe ==> AtLeastAsGood(plan.direction, tr.currentSl, plan.entry))
  }

  /** How a trailed result `t` may differ from the plain result `r` of the same trade. */
  predicate Refines(plan: Plan, prof: Profile, t: Run, r: Run) {
    && t.bar <= r.bar
    && (t.result.outcome.Loss? <==> r.result.outcome.Loss?)
    && (t.result.outcome.TimedOut? && t.result.closeTs.Some? <==> r.result.outcome.TimedOut? && r.result.closeTs.Some?)
    && (t.result.outcome.Loss? || (t.result.outcome.TimedOut? && t.result.closeTs.Some?) ==>
          t.bar == r.bar && t.result.realizedRr == r.result.realizedRr
          && t.result.closeTs == r.result.closeTs && t.result.closePrice == r.result.closePrice)
    && (t.result.outcome.WinFull? ==>
          r.result.outcome.WinFull? && t.bar == r.bar
          && t.result.closeTs == r.result.closeTs && t.result.closePrice == r.result.closePrice)
    && (t.result.outcome.BreakEven? ==> t.result.realizedRr >= ProtectedBreakevenRr(plan.fullRr, prof))
    && (r.result.outcome.BreakEven? ==>
          t.result.outcome.BreakEven? && r.result.realizedRr == ProtectedBreakevenRr(plan.fullRr, prof))
    && (t.result.closeTs.None? ==> t.result.outcome.TimedOut? && r.result.closeTs.None?)
  }

  lemma {:induction false} RefinesFrom(plan: Plan, prof: Profile, rule: StopRule, p: Progress, tr: Trail, cs: seq<Candle>)
    requires plan.riskPips != 0.0 && plan.createdAt >= 0 && prof.expiryHours >= 0.0
    requires prof.moveSlToBe && AllWellFormed(cs) && InStep(plan, prof, p, tr)
    ensures Refines(plan, prof, TrailRun(plan, prof, rule, tr, cs), PlainRun(plan, prof, p, cs))
    decreases |cs|
  {
    if cs != [] {
      CutoffsAgree(plan, prof, cs[0]);
      var v, w := TrailJudge(plan, prof, tr, cs[0]), Judge(plan, prof, p.status, cs[0]);
      assert v == w || (v.StopOut? && tr.tp1Seen && w.Hold?);
      if !Terminal(v) {
        RefinesFrom(plan, prof, rule, Next(plan, prof, p, cs[0]), TrailNext(plan, prof, rule, tr, cs[0]), cs[1..]);
      } else if w.Hold? {
        PlainPastTp1(plan, prof, p, cs);
      }
    }
  }

  /** Past TP1 with break-even on, a plain replay ends in no loss and no unprotected expiry. */
  lemma {:induction false} PlainPastTp1(plan: Plan, prof: Profile, p: Progress, cs: seq<Candle>)
    requires prof.moveSlToBe && p.status.TP1_HIT? && p.outcome.None?
    ensures var r := PlainRun(plan, prof, p, cs).result;
            || r == NEVER_CLOSED
            || r.outcome.WinFull?
            || (r.outcome.BreakEven? && r.realizedRr == ProtectedBreakevenRr(plan.fullRr, prof))
    decreases |cs|
  {
    if cs != [] && !Closes(plan, prof, p, cs[0]) {
      PlainPastTp1(plan, prof, Next(plan, prof, p, cs[0]), cs[1..]);
    }
  }

  /**
   With break-even on, trailing never closes later than plain replay; its losses,
   timeouts and full wins are plain ones on the same bar at the same price; and a
   plain break-even is a trailed break-even that pays at least as much.
   */
  lemma TrailingRefinesReplay(plan: Plan, prof: Profile, rule: StopRule, cs: seq<Candle>)
    requires plan.riskPips != 0.0 && plan.createdAt >= 0 && prof.expiryHours >= 0.0
    requires prof.moveSlToBe && AllWellFormed(cs)
    ensures Refines(plan, prof, TrailRun(plan, prof, rule, StartTrail(plan), cs), PlainRun(plan, prof, FRESH, cs))
  {
    RefinesFrom(plan, prof, rule, FRESH, StartTrail(plan), cs);
  }

  lemma {:induction false} CoincideFrom(plan: Plan, prof: Profile, rule: StopRule, p: Progress, tr: Trail, cs: seq<Candle>)
    requires plan.riskPips != 0.0 && plan.createdAt >= 0 && prof.expiryHours >= 0.0
    requires !prof.moveSlToBe && AllWellFormed(cs) && InStep(plan, prof, p, tr)
    ensures var t, r := TrailRun(plan, prof, rule, tr, cs), PlainRun(plan, prof, p, cs);
            && t.bar == r.bar && t.result.outcome == r.result.outcome
            && t.result.closeTs == r.result.closeTs && t.result.closePrice == r.result.closePrice
            && (r.result.outcome.WinFull? ==>
                  t.result.realizedRr == plan.fullRr && r.result.realizedRr == Tp2WeightedRr(plan.fullRr, prof))
            && (!r.result.outcome.WinFull? ==> t.result.realizedRr == r.result.realizedRr)
    decreases |cs|
  {
    if cs != [] {
      CutoffsAgree(plan, prof, cs[0]);
      if !Terminal(TrailJudge(plan, prof, tr, cs[0])) {
        CoincideFrom(plan, prof, rule, Next(plan, prof, p, cs[0]), TrailNext(plan, prof, rule, tr, cs[0]), cs[1..]);
      }
    }
  }

  /**
   With break-even off, outcome, close time and close price coincide on every series.
   The booked R can differ on full wins only, and does so unless nothing is closed at
   TP1, TP1 is TP2, or the reward is zero.
   */
  lemma WithoutBreakevenTheyCoincide(plan: Plan, prof: Profile, rule: StopRule, cs: seq<Candle>)
    requires plan.riskPips != 0.0 && plan.createdAt >= 0 && prof.expiryHours >= 0.0
    requires !prof.moveSlToBe && AllWellFormed(cs)
    ensures var t, r := TrailRun(plan, prof, rule, StartTrail(plan), cs), PlainRun(plan, prof, FRESH, cs);
            && t.bar == r.bar && t.result.outcome == r.result.outcome
            && t.result.closeTs == r.result.closeTs && t.result.closePrice == r.result.closePrice
            && (t.result.realizedRr == r.result.realizedRr <==>
                  || !r.result.outcome.WinFull?
                  || prof.tp1ClosePct == 0.0 || prof.tp1TriggerPct == 100.0 || plan.fullRr == 0.0)
  {
    CoincideFrom(plan, prof, rule, FRESH, StartTrail(plan), cs);
    WeightedIsFull(plan.fullRr, prof);
  }

  lemma WeightedIsFull(fullRr: real, prof: Profile)
    ensures Tp2WeightedRr(fullRr, prof) == fullRr
       <==> prof.tp1ClosePct == 0.0 || prof.tp1TriggerPct == 100.0 || fullRr == 0.0
  {
    var f, g := PctFraction(prof.tp1ClosePct), PctFraction(prof.tp1TriggerPct);
    assert Tp2WeightedRr(fullRr, prof) - fullRr == fullRr * f * (g - 1.0);
    NonzeroProduct(fullRr, f);
    NonzeroProduct(fullRr * f, g - 1.0);
  }

  lemma NonzeroProduct(x: real, y: real)
    ensures x * y == 0.0 <==> x == 0.0 || y == 0.0
  {
  }
}
