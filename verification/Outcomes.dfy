/**
 What a closed signal reports: fills, booked R and times, stated on prices and bars
 and not on how the candle step writes them (src/app/engine/market_replay.py).
 */
module Outcomes {
  import opened Domain
  import opened Lifecycle
  import opened FirstPassage

  /** A plan as the builder prices it: the stop costs 1 R, TP2 pays the plan's R, TP1 is the trigger share of the way. */
  predicate Priced(plan: Plan, prof: Profile) {
    && plan.riskPips > 0.0 && Better(plan.direction, plan.tp2, plan.entry)
    && RrAtPrice(plan, plan.stop) == -1.0 && RrAtPrice(plan, plan.tp2) == plan.fullRr
    && plan.tp1 == Tp1Level(plan.direction, plan.entry, plan.tp2, prof.tp1TriggerPct)
  }

  lemma BuiltPlansArePriced(su: Setup, prof: Profile, inSession: bool)
    requires BuildPlan(su, prof, inSession).Some?
    ensures Priced(BuildPlan(su, prof, inSession).value, prof)
  {
    BuiltPlanSides(su, prof, inSession);
    BuiltPlansAreOrdered(su, prof, inSession);
  }

  /** The R of closing the TP1 share of the position at TP1 and the rest at `price`. */
  function SplitFill(plan: Plan, prof: Profile, price: real): real
    requires plan.riskPips > 0.0
  {
    var share := prof.tp1ClosePct / 100.0;
    share * RrAtPrice(plan, plan.tp1) + (1.0 - share) * RrAtPrice(plan, price)
  }

  /** The fill and the booked R fit the outcome and the bar `c` that closed the signal. */
  predicate BooksItsFill(plan: Plan, prof: Profile, p: Progress, c: Candle)
    requires plan.riskPips > 0.0
  {
    && p.outcome.Some? && p.closePrice.Some? && p.realizedRr.Some?
    && var price, rr := p.closePrice.value, p.realizedRr.value;
       match p.outcome.value
       case Loss => p.status == SL_HIT && RrAtPrice(plan, price) == -1.0 == rr
       case WinFull => p.status == TP2_HIT && RrAtPrice(plan, price) == plan.fullRr && rr == SplitFill(plan, prof, price)
       case BreakEven =>
         && prof.moveSlToBe && (p.status == SL_HIT || p.status == EXPIRED)
         && RrAtPrice(plan, price) == 0.0 && rr == SplitFill(plan, prof, price)
       case TimedOut => p.status == EXPIRED && price == c.close && rr == 0.0
       case Invalid => false
  }

  /** Exactly the time of the closing status is set, and it is the closing time. */
  predicate TimesFitStatus(p: Progress) {
    && p.tp2HitAt == (if p.status == TP2_HIT then p.closedAt else None)
    && p.slHitAt == (if p.status == SL_HIT then p.closedAt else None)
    && p.expiredAt == (if p.status == EXPIRED then p.closedAt else None)
    && (p.closedAt.Some? <==> p.status == TP2_HIT || p.status == SL_HIT || p.status == EXPIRED)
  }

  /** A bar's range meets a level from the side on which a trade gains, or loses. */
  predicate Gains(plan: Plan, c: Candle, level: real) {
    if plan.direction == LONG then level <= c.high else c.low <= level
  }

  predicate Losses(plan: Plan, c: Candle, level: real) {
    if plan.direction == LONG then c.low <= level else level <= c.high
  }

  predicate Expired(plan: Plan, prof: Profile, c: Candle) {
    (c.timestamp - plan.createdAt) as real > prof.expiryHours * 3600000.0
  }

  lemma ExpiredIsLapsed(plan: Plan, prof: Profile, c: Candle)
    requires prof.expiryHours >= 0.0
    ensures Expired(plan, prof, c) <==> Lapsed(plan, prof, c)
  {
  }

  /** The closing bar shows the event its status names; an expired bar can be nothing else. */
  predicate ShowsEvent(plan: Plan, prof: Profile, p: Progress, c: Candle)
    requires p.closePrice.Some?
  {
    match p.status
    case TP2_HIT => Gains(plan, c, plan.tp2) && !Expired(plan, prof, c)
    case SL_HIT => Losses(plan, c, p.closePrice.value) && !Expired(plan, prof, c)
    case EXPIRED => Expired(plan, prof, c)
    case _ => false
  }

  lemma Fills(plan: Plan, prof: Profile)
    requires Priced(plan, prof)
    ensures RrAtPrice(plan, plan.entry) == 0.0
    ensures Tp2WeightedRr(plan.fullRr, prof) == SplitFill(plan, prof, plan.tp2)
    ensures ProtectedBreakevenRr(plan.fullRr, prof) == SplitFill(plan, prof, plan.entry)
  {
    BookedRrIsWeightedFills(plan, prof);
    ScaledDistance(0.0, plan.riskPips);
  }

  lemma ClosingBooks(plan: Plan, prof: Profile, p: Progress, v: Verdict, c: Candle)
    requires Priced(plan, prof) && prof.expiryHours >= 0.0
    requires Open(p.status) && p.outcome.None? && TimesFitStatus(p) && Terminal(v) && v == Judge(plan, prof, p.status, c)
    ensures var q := Apply(plan, prof, p, v, c);
            && BooksItsFill(plan, prof, q, c) && ShowsEvent(plan, prof, q, c)
            && TimesFitStatus(q) && q.closedAt == Some(c.timestamp)
  {
    Fills(plan, prof);
    ExpiredIsLapsed(plan, prof, c);
    hide SplitFill, RrAtPrice, Tp2WeightedRr, ProtectedBreakevenRr, Tp1Level;
  }

  /** Nothing has been booked. */
  predicate Unbooked(p: Progress) {
    Open(p.status) && TimesFitStatus(p) && p.outcome.None? && p.closePrice.None? && p.realizedRr.None?
  }

  /** Bar `k` closed the signal, and the report fits it. */
  predicate ReportedAt(plan: Plan, prof: Profile, q: Progress, cs: seq<Candle>, k: nat)
    requires plan.riskPips > 0.0 && k < |cs|
  {
    BooksItsFill(plan, prof, q, cs[k]) && ShowsEvent(plan, prof, q, cs[k]) && TimesFitStatus(q) && q.closedAt == Some(cs[k].timestamp)
  }

  /**
   Over every series, a replay either leaves the signal open with nothing booked, or closes it on
   one of its bars with a report that fits: fill, booked R, outcome, status, times, and the event on that bar.
   */
  lemma {:induction false} ReplayReportsFit(plan: Plan, prof: Profile, p: Progress, cs: seq<Candle>)
    requires Priced(plan, prof) && prof.expiryHours >= 0.0 && AllWellFormed(cs) && Unbooked(p)
    ensures Replay(plan, prof, p, cs).Finished?
    ensures var q := Replay(plan, prof, p, cs).progress;
            Unbooked(q) || exists k :: 0 <= k < |cs| && ReportedAt(plan, prof, q, cs, k)
    decreases |cs|
  {
    hide BooksItsFill, RrAtPrice, Tp1Level, Expired, Gains, Losses;
    if cs != [] {
      var v := Judge(plan, prof, p.status, cs[0]);
      if Closes(plan, prof, p, cs[0]) {
        ClosingBooks(plan, prof, p, v, cs[0]);
        assert ReportedAt(plan, prof, Next(plan, prof, p, cs[0]), cs, 0);
      } else {
        ReplayReportsFit(plan, prof, Next(plan, prof, p, cs[0]), cs[1..]);
        var q := Replay(plan, prof, p, cs).progress;
        if !Unbooked(q) {
          var k :| 0 <= k < |cs[1..]| && ReportedAt(plan, prof, q, cs[1..], k);
          assert ReportedAt(plan, prof, q, cs, k + 1);
        }
      }
    }
  }

  lemma HeldKeepsTp1Time(plan: Plan, prof: Profile, held: Progress, cs: seq<Candle>, from: nat)
    requires from <= |cs| && held.status.TP1_HIT? && held.closedAt.None?
    ensures var q := PassageAfterTp1(plan, prof, held, cs, from);
            q.tp1HitAt == held.tp1HitAt && (q.closedAt.None? || exists k :: from <= k < |cs| && q.closedAt == Some(cs[k].timestamp))
  {
  }

  lemma FreshTimes(plan: Plan, prof: Profile, c: Candle)
    ensures Apply(plan, prof, FRESH, FullTarget, c).tp1HitAt == Some(c.timestamp)
    ensures Apply(plan, prof, FRESH, FullTarget, c).outcome == Some(WinFull)
    ensures Apply(plan, prof, FRESH, StopOut, c).tp1HitAt == Apply(plan, prof, FRESH, Lapse, c).tp1HitAt == None
    ensures Apply(plan, prof, FRESH, StopOut, c).outcome == Some(Loss)
    ensures Apply(plan, prof, FRESH, Lapse, c).outcome == Some(TimedOut)
    ensures forall v :: Terminal(v) ==> Apply(plan, prof, FRESH, v, c).closedAt == Some(c.timestamp)
  {}

  /** TP1 was reached, if at all, on the first bar that touches it, unless another event closed the signal by then. */
  lemma Tp1TimeIsFirstTouch(plan: Plan, prof: Profile, cs: seq<Candle>)
    requires AllWellFormed(cs) && IncreasingTimes(cs)
    ensures Replay(plan, prof, FRESH, cs).Finished?
    ensures var q, t := Replay(plan, prof, FRESH, cs).progress, FirstTouch(plan, plan.tp1, cs, 0);
            q.tp1HitAt
            == if t < |cs| && (q.closedAt.None? || cs[t].timestamp < q.closedAt.value
                               || (cs[t].timestamp == q.closedAt.value && q.outcome == Some(WinFull)))
               then Some(cs[t].timestamp) else None
  {
    hide Apply, PassageAfterTp1;
    ReplayIsFirstPassage(plan, prof, cs);
    var lapse := First(c => Lapsed(plan, prof, c), cs, 0);
    var stop, t := FirstStop(plan, plan.stop, cs, 0), FirstTouch(plan, plan.tp1, cs, 0);
    if lapse < |cs| { FreshTimes(plan, prof, cs[lapse]); }
    if stop < |cs| { FreshTimes(plan, prof, cs[stop]); }
    if t < |cs| {
      FreshTimes(plan, prof, cs[t]);
      HeldKeepsTp1Time(plan, prof, AfterTp1(cs, t), cs, t + 1);
    }
  }

  /** A bar on which an open signal, before or after TP1, closes nothing. */
  predicate QuietBar(plan: Plan, prof: Profile, pastTp1: bool, c: Candle) {
    && !Expired(plan, prof, c)
    && if pastTp1 then !Gains(plan, c, plan.tp2) && !Losses(plan, c, if prof.moveSlToBe then plan.entry else plan.stop)
       else !(Gains(plan, c, plan.tp1) && Gains(plan, c, plan.tp2)) && !Losses(plan, c, plan.stop)
  }

  /** Bars that close nothing; the first gain to TP1 changes what closes the later ones. */
  predicate QuietBars(plan: Plan, prof: Profile, pastTp1: bool, cs: seq<Candle>)
    decreases |cs|
  {
    cs != [] ==>
      QuietBar(plan, prof, pastTp1, cs[0]) && QuietBars(plan, prof, pastTp1 || Gains(plan, cs[0], plan.tp1), cs[1..])
  }

  /** A replay leaves the signal open if and only if every bar is quiet; then TP1 was reached exactly if some bar gains to it. */
  lemma {:induction false} OpenIffQuiet(plan: Plan, prof: Profile, p: Progress, cs: seq<Candle>)
    requires prof.expiryHours >= 0.0 && AllWellFormed(cs) && Open(p.status)
    ensures Replay(plan, prof, p, cs).Finished?
    ensures var q := Replay(plan, prof, p, cs).progress;
            && (Open(q.status) <==> QuietBars(plan, prof, p.status.TP1_HIT?, cs))
            && (Open(q.status) ==>
                  (q.status.TP1_HIT? <==> p.status.TP1_HIT? || exists c <- cs :: Gains(plan, c, plan.tp1)))
    decreases |cs|
  {
    if cs != [] {
      assert cs == [cs[0]] + cs[1..];
      ExpiredIsLapsed(plan, prof, cs[0]);
      if !Closes(plan, prof, p, cs[0]) {
        OpenIffQuiet(plan, prof, Next(plan, prof, p, cs[0]), cs[1..]);
      }
    }
  }
}
