/**
 What the trailing simulator does with the configured giveback, and what it reports: stated on
 prices, shares and bars (src/app/backtesting/backtest.py).
 */
module Trailing {
  import opened Domain
  import opened Lifecycle
  import opened Giveback
  import opened Ratchet
  import opened Outcomes

  // ----- The giveback level -----

  /** The move from the entry to `best`, less `pct` percent of it, ends at `x`. */
  predicate GivesBack(plan: Plan, pct: real, best: real, x: real) {
    100.0 * (best - x) == pct * (best - plan.entry)
  }

  lemma ProposalGivesBack(plan: Plan, pct: real, best: real)
    ensures GivesBack(plan, pct, best, GivebackRule(plan, pct)(best))
    ensures forall x :: GivesBack(plan, pct, best, x) ==> x == GivebackRule(plan, pct)(best)
  {
    var x, move := GivebackRule(plan, pct)(best), best - plan.entry;
    assert x == plan.entry + move * (1.0 - pct / 100.0);
    assert move * (1.0 - pct / 100.0) == move - move * (pct / 100.0);
    assert 100.0 * (move * (pct / 100.0)) == pct * move;
  }

  /** Nothing given back is the best price itself, everything is the entry, and giving back more is never a better stop. */
  lemma GivebackShares(plan: Plan, less: real, more: real, best: real)
    ensures GivebackRule(plan, 0.0)(best) == best && GivebackRule(plan, 100.0)(best) == plan.entry
    ensures less <= more && AtLeastAsGood(plan.direction, best, plan.entry) ==>
      AtLeastAsGood(plan.direction, GivebackRule(plan, less)(best), GivebackRule(plan, more)(best))
  {
    ProposalGivesBack(plan, 0.0, best);
    ProposalGivesBack(plan, 100.0, best);
    ProposalGivesBack(plan, less, best);
    ProposalGivesBack(plan, more, best);
    var x, y, move := GivebackRule(plan, less)(best), GivebackRule(plan, more)(best), best - plan.entry;
    assert 100.0 * (x - y) == (more - less) * move;
    if less <= more && move >= 0.0 { assert (more - less) * move >= 0.0; }
    if less <= more && move <= 0.0 { assert (more - less) * -move >= 0.0; }
  }

  /** `m` is the highest high, or for a short the lowest low, of the bars from `from` up to `upto`. */
  predicate IsExtreme(plan: Plan, m: real, cs: seq<Candle>, from: nat, upto: nat)
    requires from <= upto <= |cs|
  {
    if plan.direction == LONG then
      (forall k :: from <= k < upto ==> cs[k].high <= m) && (exists k :: from <= k < upto && cs[k].high == m)
    else
      (forall k :: from <= k < upto ==> m <= cs[k].low) && (exists k :: from <= k < upto && cs[k].low == m)
  }

  lemma BestIsExtreme(plan: Plan, m: real, cs: seq<Candle>, from: nat, upto: nat)
    requires from <= upto <= |cs| && IsBestOf(plan.direction, m, cs, from, upto)
    ensures IsExtreme(plan, m, cs, from, upto)
  {
    var k :| from <= k < upto && m == Best(plan.direction, cs[k]);
    forall j | from <= j < upto ensures AtLeastAsGood(plan.direction, m, Best(plan.direction, cs[j])) {}
  }

  /** `a` is a strictly better price than `b` for this trade. */
  predicate Ahead(plan: Plan, a: real, b: real) {
    if plan.direction == LONG then a > b else a < b
  }

  /** The stop a bar starts from once TP1 is reached on it or was before. */
  function StopBefore(plan: Plan, tr: Trail): real {
    if tr.tp1Seen then tr.currentSl else plan.entry
  }

  /**
   From TP1's bar on, the stop moves to the giveback level of the best price since then exactly if the trade
   has gained at all, the level improves on the stop, and the bar closes beyond it; otherwise it stays.
   */
  lemma StopFollowsGiveback(plan: Plan, prof: Profile, pct: real, cs: seq<Candle>, n: nat, x: real)
    requires n < |cs| && prof.moveSlToBe && PositivePrices(cs)
    requires StillOpen(plan, prof, GivebackRule(plan, pct), cs, n + 1)
    requires TrailAfter(plan, prof, GivebackRule(plan, pct), cs, n + 1).tp1Seen
    ensures var tr := TrailAfter(plan, prof, GivebackRule(plan, pct), cs, n);
            var next := TrailAfter(plan, prof, GivebackRule(plan, pct), cs, n + 1);
            && next.mfe.Some?
            && (exists t :: 0 <= t <= n && ReachesTp1At(plan, prof, GivebackRule(plan, pct), cs, t)
                            && IsExtreme(plan, next.mfe.value, cs, t, n + 1))
            && (GivesBack(plan, pct, next.mfe.value, x) ==>
                  if Ahead(plan, next.mfe.value, plan.entry) && Ahead(plan, x, StopBefore(plan, tr)) && Ahead(plan, cs[n].close, x)
                  then next.currentSl == x && next.trailedSl == Some(x)
                  else next.currentSl == StopBefore(plan, tr) && next.trailedSl == tr.trailedSl)
  {
    var rule := GivebackRule(plan, pct);
    var tr, next := TrailAfter(plan, prof, rule, cs, n), TrailAfter(plan, prof, rule, cs, n + 1);
    BestPriceIsExtreme(plan, prof, rule, cs, n + 1);
    var t :| 0 <= t < n + 1 && ReachesTp1At(plan, prof, rule, cs, t) && IsBestOf(plan.direction, next.mfe.value, cs, t, n + 1);
    BestIsExtreme(plan, next.mfe.value, cs, t, n + 1);
    ProposalGivesBack(plan, pct, next.mfe.value);
    StopStepIs(plan, prof, rule, tr, cs[n]);
  }

  lemma StopStepIs(plan: Plan, prof: Profile, rule: StopRule, tr: Trail, c: Candle)
    requires prof.moveSlToBe && !Terminal(TrailJudge(plan, prof, tr, c)) && TrailNext(plan, prof, rule, tr, c).tp1Seen
    ensures var next := TrailNext(plan, prof, rule, tr, c);
            && next.mfe.Some?
            && var x := rule(next.mfe.value);
               if Ahead(plan, next.mfe.value, plan.entry) && Ahead(plan, x, StopBefore(plan, tr)) && Ahead(plan, c.close, x)
               then next.currentSl == x && next.trailedSl == Some(x)
               else next.currentSl == StopBefore(plan, tr) && next.trailedSl == tr.trailedSl
  {
  }

  /** Bar `j` set the stop to `x`: the giveback level of the best price from TP1's bar to that bar, which closes beyond it. */
  predicate SetAt(plan: Plan, prof: Profile, pct: real, cs: seq<Candle>, x: real, t: nat, j: nat, m: real)
    requires t <= j < |cs|
  {
    && ReachesTp1At(plan, prof, GivebackRule(plan, pct), cs, t) && IsExtreme(plan, m, cs, t, j + 1)
    && GivesBack(plan, pct, m, x) && Ahead(plan, m, plan.entry) && Ahead(plan, cs[j].close, x)
  }

  /** Every trailed stop is the giveback level of the best price seen when it was set. */
  lemma {:induction false} TrailedStopGivesBack(plan: Plan, prof: Profile, pct: real, cs: seq<Candle>, n: nat)
    requires n <= |cs| && prof.moveSlToBe && PositivePrices(cs)
    requires StillOpen(plan, prof, GivebackRule(plan, pct), cs, n)
    ensures var tr := TrailAfter(plan, prof, GivebackRule(plan, pct), cs, n);
            tr.trailedSl.Some? ==>
              exists t, j, m :: 0 <= t <= j < n && SetAt(plan, prof, pct, cs, tr.trailedSl.value, t, j, m)
  {
    hide SetAt, ReachesTp1At, IsExtreme, GivesBack;
    if n > 0 {
      TrailedStopGivesBack(plan, prof, pct, cs, n - 1);
      TrailedByThisBar(plan, prof, pct, cs, n - 1);
      var rule := GivebackRule(plan, pct);
      var tr, next := TrailAfter(plan, prof, rule, cs, n - 1), TrailAfter(plan, prof, rule, cs, n);
      if next.trailedSl.Some? && next.trailedSl == tr.trailedSl {
        var t, j, m :| 0 <= t <= j < n - 1 && SetAt(plan, prof, pct, cs, tr.trailedSl.value, t, j, m);
      }
    }
  }

  lemma TrailedByThisBar(plan: Plan, prof: Profile, pct: real, cs: seq<Candle>, n: nat)
    requires n < |cs| && prof.moveSlToBe && PositivePrices(cs)
    requires StillOpen(plan, prof, GivebackRule(plan, pct), cs, n + 1)
    ensures var tr := TrailAfter(plan, prof, GivebackRule(plan, pct), cs, n);
            var next := TrailAfter(plan, prof, GivebackRule(plan, pct), cs, n + 1);
            next.trailedSl != tr.trailedSl ==>
              next.trailedSl.Some?
              && exists t, m :: 0 <= t <= n && SetAt(plan, prof, pct, cs, next.trailedSl.value, t, n, m)
  {
    var rule := GivebackRule(plan, pct);
    var tr, next := TrailAfter(plan, prof, rule, cs, n), TrailAfter(plan, prof, rule, cs, n + 1);
    if next.tp1Seen {
      var x := rule(next.mfe.value);
      ProposalGivesBack(plan, pct, next.mfe.value);
      StopFollowsGiveback(plan, prof, pct, cs, n, x);
      var t :| 0 <= t <= n && ReachesTp1At(plan, prof, rule, cs, t) && IsExtreme(plan, next.mfe.value, cs, t, n + 1);
      assert next.trailedSl != tr.trailedSl ==> SetAt(plan, prof, pct, cs, x, t, n, next.mfe.value);
    }
  }

  // ----- What a trailed trade reports -----

  /** The stop that counts on the next bar. */
  function StopInForce(plan: Plan, prof: Profile, tr: Trail): real {
    if tr.tp1Seen && prof.moveSlToBe then tr.currentSl else plan.stop
  }

  /** A bar that closes nothing while these locals hold. */
  predicate QuietTrailBar(plan: Plan, prof: Profile, tr: Trail, c: Candle) {
    && !Expired(plan, prof, c)
    && !((tr.tp1Seen || Gains(plan, c, plan.tp1)) && Gains(plan, c, plan.tp2))
    && !Losses(plan, c, StopInForce(plan, prof, tr))
  }

  /** The report of a trade closed on bar `c` with these locals. */
  predicate TrailReportFits(plan: Plan, prof: Profile, tr: Trail, c: Candle, r: BacktestResult)
    requires plan.riskPips > 0.0
  {
    && r.closeTs == Some(c.timestamp) && r.closePrice.Some? && r.trailMfe == tr.mfe && r.trailedSl == tr.trailedSl
    && (r.hitEntryAfterTp1 <==> tr.hitEntry || (tr.tp1Seen && !Expired(plan, prof, c) && Losses(plan, c, plan.entry)))
    && var price, rr, atEntry := r.closePrice.value, r.realizedRr, SplitFill(plan, prof, plan.entry);
       match r.outcome
       case Loss =>
         && !(tr.tp1Seen && prof.moveSlToBe) && !Expired(plan, prof, c) && Losses(plan, c, price)
         && RrAtPrice(plan, price) == -1.0 == rr
       case WinFull => !Expired(plan, prof, c) && Gains(plan, c, plan.tp2) && RrAtPrice(plan, price) == plan.fullRr == rr
       case BreakEven =>
         && tr.tp1Seen && prof.moveSlToBe
         && if Expired(plan, prof, c) then RrAtPrice(plan, price) == 0.0 && rr == atEntry
            else price == tr.currentSl && Losses(plan, c, price)
                 && rr == (if atEntry >= RrAtPrice(plan, price) then atEntry else RrAtPrice(plan, price))
       case TimedOut => Expired(plan, prof, c) && !(tr.tp1Seen && prof.moveSlToBe) && price == c.close && rr == 0.0
       case Invalid => false
  }

  lemma TrailCloseReports(plan: Plan, prof: Profile, tr: Trail, c: Candle)
    requires Priced(plan, prof) && plan.createdAt >= 0 && prof.expiryHours >= 0.0
    ensures Terminal(TrailJudge(plan, prof, tr, c)) <==> !QuietTrailBar(plan, prof, tr, c)
    ensures Terminal(TrailJudge(plan, prof, tr, c)) ==> TrailReportFits(plan, prof, tr, c, TrailClose(plan, prof, tr, c))
  {
    hide SplitFill, RrAtPrice, ProtectedBreakevenRr, ExpiryCutoff;
    Fills(plan, prof);
    CutoffsAgree(plan, prof, c);
    ExpiredIsLapsed(plan, prof, c);
  }

  /** The run closes on the bar it names, with the locals of the bars before. */
  lemma {:induction false} RunClosesOn(plan: Plan, prof: Profile, rule: StopRule, cs: seq<Candle>, n: nat)
    requires plan.riskPips != 0.0 && n <= |cs| && StillOpen(plan, prof, rule, cs, n)
    ensures var r := TrailRun(plan, prof, rule, TrailAfter(plan, prof, rule, cs, n), cs[n..]);
            && n + r.bar <= |cs| && StillOpen(plan, prof, rule, cs, n + r.bar)
            && var tr := TrailAfter(plan, prof, rule, cs, n + r.bar);
               if n + r.bar == |cs| then
                 r.result == NEVER_CLOSED.(hitEntryAfterTp1 := tr.hitEntry, trailMfe := tr.mfe, trailedSl := tr.trailedSl)
               else Terminal(TrailJudge(plan, prof, tr, cs[n + r.bar])) && r.result == TrailClose(plan, prof, tr, cs[n + r.bar])
    decreases |cs| - n
  {
    hide TrailJudge, TrailNext, TrailClose;
    if n < |cs| && !Terminal(TrailJudge(plan, prof, TrailAfter(plan, prof, rule, cs, n), cs[n])) {
      assert cs[n..][1..] == cs[n + 1..];
      RunClosesOn(plan, prof, rule, cs, n + 1);
    }
  }

  /**
   Over every series, a trailed trade closes on its first bar that is not quiet, with a report that fits
   that bar and the locals; if every bar is quiet it never closes.
   */
  lemma TrailReportsFit(plan: Plan, prof: Profile, rule: StopRule, cs: seq<Candle>)
    requires Priced(plan, prof) && plan.createdAt >= 0 && prof.expiryHours >= 0.0
    ensures var r := TrailRun(plan, prof, rule, StartTrail(plan), cs);
            && r.bar <= |cs|
            && (forall k :: 0 <= k < r.bar ==> QuietTrailBar(plan, prof, TrailAfter(plan, prof, rule, cs, k), cs[k]))
            && var tr := TrailAfter(plan, prof, rule, cs, r.bar);
               if r.bar == |cs| then
                 r.result.outcome == TimedOut && r.result.realizedRr == 0.0
                 && r.result.closeTs == None && r.result.closePrice == None
               else
                 !QuietTrailBar(plan, prof, tr, cs[r.bar]) && TrailReportFits(plan, prof, tr, cs[r.bar], r.result)
  {
    hide QuietTrailBar, TrailReportFits, TrailJudge, TrailClose, TrailNext, TrailRun, Priced;
    assert cs[0..] == cs;
    PricedRisk(plan, prof);
    RunClosesOn(plan, prof, rule, cs, 0);
    var r := TrailRun(plan, prof, rule, StartTrail(plan), cs);
    forall k | 0 <= k < r.bar ensures QuietTrailBar(plan, prof, TrailAfter(plan, prof, rule, cs, k), cs[k]) {
      OpenBefore(plan, prof, rule, cs, k, r.bar);
      TrailCloseReports(plan, prof, TrailAfter(plan, prof, rule, cs, k), cs[k]);
    }
    if r.bar < |cs| {
      TrailCloseReports(plan, prof, TrailAfter(plan, prof, rule, cs, r.bar), cs[r.bar]);
    }
  }

  lemma PricedRisk(plan: Plan, prof: Profile)
    requires Priced(plan, prof)
    ensures plan.riskPips > 0.0
  {}

  lemma {:induction false} OpenBefore(plan: Plan, prof: Profile, rule: StopRule, cs: seq<Candle>, k: nat, n: nat)
    requires k < n <= |cs| && StillOpen(plan, prof, rule, cs, n)
    ensures StillOpen(plan, prof, rule, cs, k)
    ensures !Terminal(TrailJudge(plan, prof, TrailAfter(plan, prof, rule, cs, k), cs[k]))
  {
    if k < n - 1 {
      OpenBefore(plan, prof, rule, cs, k, n - 1);
    }
  }

  /** While the trade is open, TP1 has been seen exactly if some bar gained to it. */
  lemma {:induction false} Tp1SeenIffGained(plan: Plan, prof: Profile, rule: StopRule, cs: seq<Candle>, n: nat)
    requires n <= |cs| && StillOpen(plan, prof, rule, cs, n)
    ensures TrailAfter(plan, prof, rule, cs, n).tp1Seen <==> exists k :: 0 <= k < n && Gains(plan, cs[k], plan.tp1)
  {
    if n > 0 {
      Tp1SeenIffGained(plan, prof, rule, cs, n - 1);
    }
  }

  /** While the trade is open, the entry flag is set exactly if a bar after one that gained to TP1 came back to the entry. */
  lemma {:induction false} HitEntryIff(plan: Plan, prof: Profile, rule: StopRule, cs: seq<Candle>, n: nat)
    requires n <= |cs| && StillOpen(plan, prof, rule, cs, n)
    ensures TrailAfter(plan, prof, rule, cs, n).hitEntry
       <==> exists j, k :: 0 <= j < k < n && Gains(plan, cs[j], plan.tp1) && Losses(plan, cs[k], plan.entry)
  {
    if n > 0 {
      HitEntryIff(plan, prof, rule, cs, n - 1);
      Tp1SeenIffGained(plan, prof, rule, cs, n - 1);
      HitEntryStep(plan, prof, rule, TrailAfter(plan, prof, rule, cs, n - 1), cs[n - 1]);
    }
  }

  lemma HitEntryStep(plan: Plan, prof: Profile, rule: StopRule, tr: Trail, c: Candle)
    ensures TrailNext(plan, prof, rule, tr, c).hitEntry <==> tr.hitEntry || (tr.tp1Seen && Losses(plan, c, plan.entry))
  {}
}
