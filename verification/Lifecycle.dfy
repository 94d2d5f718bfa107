/**
 The shared signal lifecycle of src/app/engine/market_replay.py: one candle
 step, the replay loop that drives it, and the pure functions that specify both.
 */
module Lifecycle {
  import opened Domain

  datatype Status = PENDING | TRIGGERED | TP1_HIT | TP2_HIT | SL_HIT | INVALIDATED | EXPIRED

  datatype Outcome = WinFull | BreakEven | Loss | Invalid | TimedOut

  /** The mutable part of a trade signal. */
  datatype Progress = Progress(
    status: Status, outcome: Option<Outcome>, realizedRr: Option<real>, closePrice: Option<real>,
    tp1HitAt: Option<int>, tp2HitAt: Option<int>, slHitAt: Option<int>,
    expiredAt: Option<int>, closedAt: Option<int>)

  const FRESH := Progress(TRIGGERED, None, None, None, None, None, None, None, None)

  predicate Open(status: Status) {
    status.TRIGGERED? || status.TP1_HIT?
  }

  /** What a step reports; `BadCandle` is the exception of `normalize_candle`. */
  datatype StepOutcome = Stepped(terminal: bool, emitTp1: bool) | BadCandle

  // ----- Specification: judge the candle, then apply the verdict -----

  datatype Verdict = Lapse | FullTarget | StopOut | FirstTarget | Hold

  predicate Lapsed(plan: Plan, prof: Profile, c: Candle) {
    c.timestamp - plan.createdAt > ExpiryMs(prof)
  }

  function EffectiveStop(plan: Plan, prof: Profile, status: Status): real {
    if status.TP1_HIT? && prof.moveSlToBe then plan.entry else plan.stop
  }

  /** The priority order: expiry, both targets, stop, first target. */
  function Judge(plan: Plan, prof: Profile, status: Status, c: Candle): Verdict {
    if Lapsed(plan, prof, c) then Lapse
    else if !Open(status) then Hold
    else if TouchesTarget(plan.direction, c, plan.tp2)
            && (status.TP1_HIT? || TouchesTarget(plan.direction, c, plan.tp1)) then FullTarget
    else if TouchesStop(plan.direction, c, EffectiveStop(plan, prof, status)) then StopOut
    else if status.TRIGGERED? && TouchesTarget(plan.direction, c, plan.tp1) then FirstTarget
    else Hold
  }

  predicate Terminal(v: Verdict) {
    v.Lapse? || v.FullTarget? || v.StopOut?
  }

  function Apply(plan: Plan, prof: Profile, p: Progress, v: Verdict, c: Candle): Progress {
    var now := Some(c.timestamp);
    var protects := p.status.TP1_HIT? && prof.moveSlToBe;
    var protectedRr := Some(ProtectedBreakevenRr(plan.fullRr, prof));
    match v
    case Hold => p
    case FirstTarget => p.(status := TP1_HIT, tp1HitAt := now)
    case FullTarget =>
      p.(status := TP2_HIT, outcome := Some(WinFull), realizedRr := Some(Tp2WeightedRr(plan.fullRr, prof)),
         closePrice := Some(plan.tp2), closedAt := now, tp2HitAt := now,
         tp1HitAt := if p.status.TRIGGERED? then now else p.tp1HitAt)
    case StopOut =>
      p.(status := SL_HIT, slHitAt := now, closedAt := now,
         outcome := Some(if protects then BreakEven else Loss),
         realizedRr := if protects then protectedRr else Some(-1.0),
         closePrice := Some(EffectiveStop(plan, prof, p.status)))
    case Lapse =>
      var q := p.(status := EXPIRED, expiredAt := now, closedAt := now);
      if protects then q.(outcome := Some(BreakEven), realizedRr := protectedRr, closePrice := Some(plan.entry))
      else if Open(p.status) then q.(outcome := Some(TimedOut), realizedRr := Some(0.0), closePrice := Some(c.close))
      else q
  }

  function Next(plan: Plan, prof: Profile, p: Progress, c: Candle): Progress {
    Apply(plan, prof, p, Judge(plan, prof, p.status, c), c)
  }

  predicate Closes(plan: Plan, prof: Profile, p: Progress, c: Candle) {
    Terminal(Judge(plan, prof, p.status, c))
  }

  /** A replay over a candle series; `Raised` when a malformed candle is met first. */
  datatype Replayed = Finished(progress: Progress) | Raised

  function Replay(plan: Plan, prof: Profile, p: Progress, cs: seq<Candle>): Replayed
    decreases |cs|
  {
    if cs == [] then Finished(p)
    else if !WellFormed(cs[0]) then Raised
    else if Closes(plan, prof, p, cs[0]) then Finished(Next(plan, prof, p, cs[0]))
    else Replay(plan, prof, Next(plan, prof, p, cs[0]), cs[1..])
  }

  // ----- The mutable signal -----

  class TradeSignal {
    const id: string
    const symbol: string
    const htfInterval: string
    const ltfInterval: string
    const plan: Plan
    var status: Status
    var outcome: Option<Outcome>
    var realizedRr: Option<real>
    var closePrice: Option<real>
    var tp1HitAt: Option<int>
    var tp2HitAt: Option<int>
    var slHitAt: Option<int>
    var expiredAt: Option<int>
    var closedAt: Option<int>

    constructor (id: string, symbol: string, htfInterval: string, ltfInterval: string, plan: Plan, p: Progress)
      ensures this.id == id && this.symbol == symbol
      ensures this.htfInterval == htfInterval && this.ltfInterval == ltfInterval
      ensures this.plan == plan && Current() == p
    {
      this.id, this.symbol, this.plan := id, symbol, plan;
      this.htfInterval, this.ltfInterval := htfInterval, ltfInterval;
      status, outcome, realizedRr, closePrice := p.status, p.outcome, p.realizedRr, p.closePrice;
      tp1HitAt, tp2HitAt, slHitAt := p.tp1HitAt, p.tp2HitAt, p.slHitAt;
      expiredAt, closedAt := p.expiredAt, p.closedAt;
    }

    function Current(): Progress
      reads this
    {
      Progress(status, outcome, realizedRr, closePrice, tp1HitAt, tp2HitAt, slHitAt, expiredAt, closedAt)
    }

    /**
     One candle (`step_signal_state` with `now` the candle's time). The TP1 event
     is never reported together with a close.
     */
    method Step(candle: Candle, prof: Profile) returns (step: StepOutcome)
      modifies this
      ensures !WellFormed(candle) ==> step.BadCandle? && Current() == old(Current())
      ensures WellFormed(candle) ==>
                var v := Judge(plan, prof, old(status), candle);
                && step == Stepped(Terminal(v), v.FirstTarget?)
                && Current() == Apply(plan, prof, old(Current()), v, candle)
    {
      if candle.high < candle.low {
        return BadCandle;
      }
      var now := candle.timestamp;
      var isShort := plan.direction == SHORT;
      var expiryMs := ExpiryMs(prof);

      if now - plan.createdAt > expiryMs {
        if status == TRIGGERED {
          outcome := Some(TimedOut);
          realizedRr := Some(0.0);
          closePrice := Some(candle.close);
        } else if status == TP1_HIT {
          if prof.moveSlToBe {
            outcome := Some(BreakEven);
            realizedRr := Some(ProtectedBreakevenRr(plan.fullRr, prof));
            closePrice := Some(plan.entry);
          } else {
            outcome := Some(TimedOut);
            realizedRr := Some(0.0);
            closePrice := Some(candle.close);
          }
        }
        status := EXPIRED;
        expiredAt := Some(now);
        closedAt := Some(now);
        return Stepped(true, false);
      }

      var effectiveSl := plan.stop;
      if status == TP1_HIT && prof.moveSlToBe {
        effectiveSl := plan.entry;
      }
      var slHit := if isShort then candle.high >= effectiveSl else candle.low <= effectiveSl;
      var tp1Chk := if isShort then candle.low <= plan.tp1 else candle.high >= plan.tp1;
      var tp2Hit := if isShort then candle.low <= plan.tp2 else candle.high >= plan.tp2;
      var emitTp1 := false;

      if status == TRIGGERED {
        if tp1Chk && tp2Hit {
          status := TP2_HIT;
          outcome := Some(WinFull);
          realizedRr := Some(Tp2WeightedRr(plan.fullRr, prof));
          tp1HitAt := Some(now);
          tp2HitAt := Some(now);
          closedAt := Some(now);
          closePrice := Some(plan.tp2);
          return Stepped(true, false);
        }
        if slHit {
          status := SL_HIT;
          outcome := Some(Loss);
          realizedRr := Some(-1.0);
          slHitAt := Some(now);
          closedAt := Some(now);
          closePrice := Some(plan.stop);
          return Stepped(true, false);
        }
        if tp1Chk {
          status := TP1_HIT;
          tp1HitAt := Some(now);
          emitTp1 := true;
        }
      }

      if status == TP1_HIT {
        if tp2Hit {
          status := TP2_HIT;
          outcome := Some(WinFull);
          realizedRr := Some(Tp2WeightedRr(plan.fullRr, prof));
          tp2HitAt := Some(now);
          closedAt := Some(now);
          closePrice := Some(plan.tp2);
          return Stepped(true, emitTp1);
        }
        if slHit {
          slHitAt := Some(now);
          closedAt := Some(now);
          status := SL_HIT;
          if prof.moveSlToBe {
            outcome := Some(BreakEven);
            realizedRr := Some(ProtectedBreakevenRr(plan.fullRr, prof));
            closePrice := Some(effectiveSl);
          } else {
            outcome := Some(Loss);
            realizedRr := Some(-1.0);
            closePrice := Some(plan.stop);
          }
          return Stepped(true, emitTp1);
        }
      }
      return Stepped(false, emitTp1);
    }
  }

  /** `replay_signal_lifecycle`: replay on a private copy, leaving the signal alone. */
  method ReplaySignalLifecycle(signal: TradeSignal, candles: seq<Candle>, prof: Profile)
    returns (probe: TradeSignal, raised: bool)
    ensures fresh(probe) && probe.plan == signal.plan
    ensures var r := Replay(signal.plan, prof, signal.Current(), candles);
            && raised == r.Raised?
            && (!raised ==> probe.Current() == r.progress)
  {
    probe := new TradeSignal(signal.id, signal.symbol, signal.htfInterval, signal.ltfInterval,
                            signal.plan, signal.Current());
    for i := 0 to |candles|
      invariant fresh(probe) && probe.plan == signal.plan
      invariant Replay(signal.plan, prof, signal.Current(), candles)
             == Replay(signal.plan, prof, probe.Current(), candles[i..])
    {
      assert candles[i..][1..] == candles[i + 1..];
      var step := probe.Step(candles[i], prof);
      if step.BadCandle? {
        return probe, true;
      }
      if step.terminal {
        return probe, false;
      }
    }
    return probe, false;
  }
}
