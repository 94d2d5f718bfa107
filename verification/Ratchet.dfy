/** The stop and best-price ratchet of giveback trailing, over whole runs. */
module Ratchet {
  import opened Domain
  import opened Lifecycle
  import opened Giveback

  /** The loop locals after the first `n` candles. */
  function TrailAfter(plan: Plan, prof: Profile, rule: StopRule, cs: seq<Candle>, n: nat): Trail
    requires n <= |cs|
  {
    if n == 0 then StartTrail(plan)
    else TrailNext(plan, prof, rule, TrailAfter(plan, prof, rule, cs, n - 1), cs[n - 1])
  }

  /** The trade is still open after the first `n` candles. */
  predicate StillOpen(plan: Plan, prof: Profile, rule: StopRule, cs: seq<Candle>, n: nat)
    requires n <= |cs|
  {
    n == 0
    || (StillOpen(plan, prof, rule, cs, n - 1)
        && !Terminal(TrailJudge(plan, prof, TrailAfter(plan, prof, rule, cs, n - 1), cs[n - 1])))
  }

  /** These locals are the ones the simulator runs with. */
  lemma {:induction false} RunContinues(plan: Plan, prof: Profile, rule: StopRule, cs: seq<Candle>, n: nat)
    requires plan.riskPips != 0.0 && n <= |cs| && StillOpen(plan, prof, rule, cs, n)
    ensures TrailRun(plan, prof, rule, StartTrail(plan), cs).result
         == TrailRun(plan, prof, rule, TrailAfter(plan, prof, rule, cs, n), cs[n..]).result
  {
    if n == 0 {
      assert cs[0..] == cs;
    } else {
      RunContinues(plan, prof, rule, cs, n - 1);
      assert cs[n - 1..][1..] == cs[n..];
    }
  }

  /** One candle after TP1: what the stop may do. */
  lemma StopStep(plan: Plan, prof: Profile, rule: StopRule, tr: Trail, c: Candle)
    requires prof.moveSlToBe && tr.tp1Seen && !Terminal(TrailJudge(plan, prof, tr, c))
    ensures var next := TrailNext(plan, prof, rule, tr, c);
            && next.tp1Seen
            && AtLeastAsGood(plan.direction, next.currentSl, tr.currentSl)
            && (next.currentSl != tr.currentSl ==>
                  Better(plan.direction, c.close, next.currentSl) && next.trailedSl == Some(next.currentSl))
            && (next.currentSl == tr.currentSl ==> next.trailedSl == tr.trailedSl)
  {
  }

  /** The stop is untouched before TP1; after it, the entry or the last accepted trailing stop. */
  predicate Protected(plan: Plan, tr: Trail) {
    if tr.tp1Seen then
      && AtLeastAsGood(plan.direction, tr.currentSl, plan.entry)
      && tr.currentSl == (if tr.trailedSl.Some? then tr.trailedSl.value else plan.entry)
    else tr == StartTrail(plan)
  }

  lemma ProtectedStep(plan: Plan, prof: Profile, rule: StopRule, tr: Trail, c: Candle)
    requires prof.moveSlToBe && Protected(plan, tr) && !Terminal(TrailJudge(plan, prof, tr, c))
    ensures Protected(plan, TrailNext(plan, prof, rule, tr, c))
  {
  }

  /** After TP1 the stop is never on the losing side of the entry. */
  lemma {:induction false} StopIsProtected(plan: Plan, prof: Profile, rule: StopRule, cs: seq<Candle>, n: nat)
    requires n <= |cs| && prof.moveSlToBe && StillOpen(plan, prof, rule, cs, n)
    ensures Protected(plan, TrailAfter(plan, prof, rule, cs, n))
  {
    if n > 0 {
      StopIsProtected(plan, prof, rule, cs, n - 1);
      ProtectedStep(plan, prof, rule, TrailAfter(plan, prof, rule, cs, n - 1), cs[n - 1]);
    }
  }

  /**
   After TP1 the stop only ever moves in the trade's favour, and each bar that moves
   it closes strictly beyond the new stop.
   */
  lemma {:induction false} StopRatchets(plan: Plan, prof: Profile, rule: StopRule, cs: seq<Candle>, m: nat, n: nat)
    requires m <= n <= |cs| && prof.moveSlToBe && StillOpen(plan, prof, rule, cs, n)
    requires TrailAfter(plan, prof, rule, cs, m).tp1Seen
    ensures var early, late := TrailAfter(plan, prof, rule, cs, m), TrailAfter(plan, prof, rule, cs, n);
            && late.tp1Seen
            && AtLeastAsGood(plan.direction, late.currentSl, early.currentSl)
            && (late.currentSl != early.currentSl ==>
                  exists k :: m <= k < n && late.currentSl == TrailAfter(plan, prof, rule, cs, k + 1).currentSl
                              && Better(plan.direction, cs[k].close, late.currentSl))
    decreases n - m
  {
    if m < n {
      StopRatchets(plan, prof, rule, cs, m, n - 1);
      StopStep(plan, prof, rule, TrailAfter(plan, prof, rule, cs, n - 1), cs[n - 1]);
      assert TrailAfter(plan, prof, rule, cs, n) == TrailAfter(plan, prof, rule, cs, (n - 1) + 1);
    }
  }

  /** A stop-out after TP1 fills at the entry or better and books at least the protected R. */
  lemma StopOutIsProtected(plan: Plan, prof: Profile, rule: StopRule, cs: seq<Candle>, n: nat)
    requires plan.riskPips > 0.0 && prof.moveSlToBe && n < |cs| && StillOpen(plan, prof, rule, cs, n)
    requires TrailAfter(plan, prof, rule, cs, n).tp1Seen
    requires TrailJudge(plan, prof, TrailAfter(plan, prof, rule, cs, n), cs[n]).StopOut?
    ensures var r := TrailRun(plan, prof, rule, StartTrail(plan), cs).result;
            && r.outcome.BreakEven? && r.closePrice.Some?
            && AtLeastAsGood(plan.direction, r.closePrice.value, plan.entry)
            && r.realizedRr >= ProtectedBreakevenRr(plan.fullRr, prof)
            && r.realizedRr >= RrAtPrice(plan, r.closePrice.value) >= 0.0
  {
    RunContinues(plan, prof, rule, cs, n);
    StopIsProtected(plan, prof, rule, cs, n);
    var tr := TrailAfter(plan, prof, rule, cs, n);
    var gain := if plan.direction.LONG? then tr.currentSl - plan.entry else plan.entry - tr.currentSl;
    ScaledDistance(gain, plan.riskPips);
  }

  // ----- The best price seen -----

  /**
   The recorded best price gets worse on a candle exactly when it was recorded as
   zero, which the source reads as missing, and the candle's extreme is worse than zero.
   */
  lemma BestPriceDrops(d: Direction, mfe: real, c: Candle)
    ensures !AtLeastAsGood(d, BestSoFar(d, Some(mfe), c), mfe) <==> mfe == 0.0 && Better(d, 0.0, Best(d, c))
  {
  }

  predicate PositivePrices(cs: seq<Candle>) {
    forall c <- cs :: c.low > 0.0 && c.high > 0.0
  }

  /** `m` is the best extreme among the candles from `from` up to `upto`. */
  predicate IsBestOf(d: Direction, m: real, cs: seq<Candle>, from: nat, upto: nat)
    requires from <= upto <= |cs|
  {
    && (forall k :: from <= k < upto ==> AtLeastAsGood(d, m, Best(d, cs[k])))
    && (exists k :: from <= k < upto && m == Best(d, cs[k]))
  }

  predicate ReachesTp1At(plan: Plan, prof: Profile, rule: StopRule, cs: seq<Candle>, t: nat)
    requires t < |cs|
  {
    var tr := TrailAfter(plan, prof, rule, cs, t);
    !tr.tp1Seen && TrailJudge(plan, prof, tr, cs[t]).FirstTarget?
  }

  lemma BestOfExtends(d: Direction, mfe: real, cs: seq<Candle>, from: nat, upto: nat)
    requires from <= upto < |cs| && IsBestOf(d, mfe, cs, from, upto) && mfe != 0.0
    ensures IsBestOf(d, BestSoFar(d, Some(mfe), cs[upto]), cs, from, upto + 1)
  {
    var k :| from <= k < upto && mfe == Best(d, cs[k]);
    assert Best(d, cs[upto]) == Best(d, cs[upto]);
  }

  lemma BestPriceStep(plan: Plan, prof: Profile, rule: StopRule, tr: Trail, c: Candle)
    requires prof.moveSlToBe && !Terminal(TrailJudge(plan, prof, tr, c))
    ensures var next, first := TrailNext(plan, prof, rule, tr, c), TrailJudge(plan, prof, tr, c).FirstTarget?;
            && next.tp1Seen == (tr.tp1Seen || first)
            && next.mfe == if next.tp1Seen then Some(BestSoFar(plan.direction, tr.mfe, c)) else tr.mfe
  {
  }

  /** What the recorded best price is after `n` candles. */
  predicate BestKnown(plan: Plan, prof: Profile, rule: StopRule, cs: seq<Candle>, n: nat, tr: Trail)
    requires n <= |cs|
  {
    if tr.tp1Seen then
      tr.mfe.Some?
      && (exists t :: 0 <= t < n && ReachesTp1At(plan, prof, rule, cs, t)
                      && IsBestOf(plan.direction, tr.mfe.value, cs, t, n))
    else tr.mfe.None?
  }

  lemma BestKnownStep(plan: Plan, prof: Profile, rule: StopRule, cs: seq<Candle>, n: nat, tr: Trail, next: Trail)
    requires n < |cs| && PositivePrices(cs) && BestKnown(plan, prof, rule, cs, n, tr)
    requires next.tp1Seen == (tr.tp1Seen || ReachesTp1At(plan, prof, rule, cs, n))
    requires next.mfe == if next.tp1Seen then Some(BestSoFar(plan.direction, tr.mfe, cs[n])) else tr.mfe
    ensures BestKnown(plan, prof, rule, cs, n + 1, next)
  {
    var d := plan.direction;
    if tr.tp1Seen {
      var t :| 0 <= t < n && ReachesTp1At(plan, prof, rule, cs, t) && IsBestOf(d, tr.mfe.value, cs, t, n);
      BestOfExtends(d, tr.mfe.value, cs, t, n);
    } else if next.tp1Seen {
      assert next.mfe.value == Best(d, cs[n]);
      assert IsBestOf(d, next.mfe.value, cs, n, n + 1);
    }
  }

  /** On positive prices the recorded best price is the best extreme since TP1's own bar. */
  lemma {:induction false} BestPriceIsExtreme(plan: Plan, prof: Profile, rule: StopRule, cs: seq<Candle>, n: nat)
    requires n <= |cs| && prof.moveSlToBe && StillOpen(plan, prof, rule, cs, n) && PositivePrices(cs)
    ensures BestKnown(plan, prof, rule, cs, n, TrailAfter(plan, prof, rule, cs, n))
  {
    if n > 0 {
      BestPriceIsExtreme(plan, prof, rule, cs, n - 1);
      var tr := TrailAfter(plan, prof, rule, cs, n - 1);
      BestPriceStep(plan, prof, rule, tr, cs[n - 1]);
      BestKnownStep(plan, prof, rule, cs, n - 1, tr, TrailAfter(plan, prof, rule, cs, n));
    }
  }
}
