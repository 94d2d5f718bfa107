/**
 No decision of a backtest depends on data that was not closed when it was made,
 although the direction locks are set from a simulation over future bars.
 */
module LookAhead {
  import opened Domain
  import opened Lifecycle
  import opened Giveback
  import opened Backtest

  predicate SameTimes(a: seq<Candle>, b: seq<Candle>) {
    |a| == |b| && forall k :: 0 <= k < |a| ==> a[k].timestamp == b[k].timestamp
  }

  // ----- The simulation, bar by bar -----

  lemma {:induction false} PlainRunAgrees(plan: Plan, prof: Profile, p: Progress, a: seq<Candle>, b: seq<Candle>, k: nat)
    requires k <= |a| == |b| && a[..k] == b[..k]
    ensures var r, s := PlainRun(plan, prof, p, a), PlainRun(plan, prof, p, b);
            (r.bar < k <==> s.bar < k) && (r.bar < k ==> r == s)
    decreases k
  {
    if k > 0 {
      assert a[0] == a[..k][0] == b[..k][0] == b[0];
      if !Closes(plan, prof, p, a[0]) {
        assert a[1..][..k - 1] == a[..k][1..] == b[..k][1..] == b[1..][..k - 1];
        PlainRunAgrees(plan, prof, Next(plan, prof, p, a[0]), a[1..], b[1..], k - 1);
      }
    }
  }

  lemma {:induction false} TrailRunAgrees(plan: Plan, prof: Profile, rule: StopRule, tr: Trail, a: seq<Candle>, b: seq<Candle>, k: nat)
    requires plan.riskPips != 0.0 && k <= |a| == |b| && a[..k] == b[..k]
    ensures var r, s := TrailRun(plan, prof, rule, tr, a), TrailRun(plan, prof, rule, tr, b);
            (r.bar < k <==> s.bar < k) && (r.bar < k ==> r == s)
    decreases k
  {
    if k > 0 {
      assert a[0] == a[..k][0] == b[..k][0] == b[0];
      if !Terminal(TrailJudge(plan, prof, tr, a[0])) {
        assert a[1..][..k - 1] == a[..k][1..] == b[..k][1..] == b[1..][..k - 1];
        TrailRunAgrees(plan, prof, rule, TrailNext(plan, prof, rule, tr, a[0]), a[1..], b[1..], k - 1);
      }
    }
  }

  /** A run closes at the time of its closing bar; one that never closes met no lapsed bar. */
  predicate ClosesOnItsBar(plan: Plan, prof: Profile, r: Run, cs: seq<Candle>) {
    && r.bar <= |cs|
    && (r.bar < |cs| ==> r.result.closeTs == Some(cs[r.bar].timestamp))
    && (r.bar == |cs| ==> r.result.closeTs.None? && forall c <- cs :: !Lapsed(plan, prof, c))
  }

  lemma {:induction false} PlainRunCloses(plan: Plan, prof: Profile, p: Progress, cs: seq<Candle>)
    requires Open(p.status) && p.outcome.None?
    ensures ClosesOnItsBar(plan, prof, PlainRun(plan, prof, p, cs), cs)
    decreases |cs|
  {
    if cs != [] && !Closes(plan, prof, p, cs[0]) {
      PlainRunCloses(plan, prof, Next(plan, prof, p, cs[0]), cs[1..]);
      assert cs == [cs[0]] + cs[1..];
    }
  }

  lemma {:induction false} TrailRunCloses(plan: Plan, prof: Profile, rule: StopRule, tr: Trail, cs: seq<Candle>)
    requires plan.riskPips != 0.0 && plan.createdAt >= 0 && prof.expiryHours >= 0.0
    ensures ClosesOnItsBar(plan, prof, TrailRun(plan, prof, rule, tr, cs), cs)
    decreases |cs|
  {
    if cs != [] {
      CutoffsAgree(plan, prof, cs[0]);
      if !Terminal(TrailJudge(plan, prof, tr, cs[0])) {
        TrailRunCloses(plan, prof, rule, TrailNext(plan, prof, rule, tr, cs[0]), cs[1..]);
        assert cs == [cs[0]] + cs[1..];
      }
    }
  }

  lemma SimulatedAgrees(plan: TradePlan, prof: Profile, pct: real, a: seq<Candle>, b: seq<Candle>, k: nat)
    requires prof.expiryHours >= 0.0 && k <= |a| == |b| && a[..k] == b[..k]
    ensures var r, s := Simulated(plan, prof, pct, a), Simulated(plan, prof, pct, b);
            && (r.bar < k <==> s.bar < k) && (r.bar < k ==> r == s)
            && ClosesOnItsBar(plan, prof, r, a) && ClosesOnItsBar(plan, prof, s, b)
  {
    if pct > 0.0 {
      var rule := GivebackRule(plan, pct);
      TrailRunAgrees(plan, prof, rule, StartTrail(plan), a, b, k);
      TrailRunCloses(plan, prof, rule, StartTrail(plan), a);
      TrailRunCloses(plan, prof, rule, StartTrail(plan), b);
    } else {
      PlainRunAgrees(plan, prof, FRESH, a, b, k);
      PlainRunCloses(plan, prof, FRESH, a);
      PlainRunCloses(plan, prof, FRESH, b);
    }
  }

  /** Two lock times that the run cannot tell apart up to the horizon. */
  predicate LockAgrees(s: int, t: int, horizon: int) {
    s == t || (s > horizon && t > horizon)
  }

  /** The same result, or two that lock their direction past the horizon. */
  predicate ResultsAgree(rules: Rules, plan: TradePlan, r: BacktestResult, q: BacktestResult, horizon: int) {
    r == q || (LockUntil(rules, plan, r) > horizon && LockUntil(rules, plan, q) > horizon)
  }

  /** A run that closes after the agreed bars, or never, locks its direction past the horizon. */
  lemma LateLock(rules: Rules, plan: TradePlan, prof: Profile, r: Run, cs: seq<Candle>, k: nat, horizon: int)
    requires k < |cs| && IncreasingTimes(cs) && ClosesOnItsBar(plan, prof, r, cs) && r.bar >= k
    requires prof.expiryHours >= 0.0 && rules.lockExpiryMs >= ExpiryMs(prof)
    requires horizon < cs[k].timestamp
    ensures LockUntil(rules, plan, r.result) > horizon
  {
    var last := cs[|cs| - 1];
    assert last in cs;
  }

  lemma LocksAgree(rules: Rules, plan: TradePlan, prof: Profile, a: seq<Candle>, b: seq<Candle>, k: nat, horizon: int)
    requires prof.expiryHours >= 0.0 && rules.lockExpiryMs >= ExpiryMs(prof)
    requires k <= |a| && SameTimes(a, b) && a[..k] == b[..k] && IncreasingTimes(a)
    requires k < |a| ==> horizon < a[k].timestamp
    ensures ResultsAgree(rules, plan, Simulated(plan, prof, rules.givebackPct, a).result,
                         Simulated(plan, prof, rules.givebackPct, b).result, horizon)
  {
    SimulatedAgrees(plan, prof, rules.givebackPct, a, b, k);
    var r, s := Simulated(plan, prof, rules.givebackPct, a), Simulated(plan, prof, rules.givebackPct, b);
    if k == |a| {
      assert a == a[..k] == b[..k] == b;
    } else if r.bar >= k {
      LateLock(rules, plan, prof, r, a, k, horizon);
      LateLock(rules, plan, prof, s, b, k, horizon);
    }
  }

  // ----- Decisions depend on the view and the gates only -----

  /** Trades of one entry: the same result if either lock has ended by the horizon. */
  predicate TradesAgree(x: Trade, y: Trade, horizon: int) {
    x.entry == y.entry && x.lock == y.lock && (x == y || (x.lockUntil > horizon && y.lockUntil > horizon))
  }

  /** Books that gate decisions alike, will expire locks alike, and hold the same ended trades, up to the horizon. */
  ghost predicate BooksAgree(s: Book, t: Book, horizon: int) {
    && s.dead == t.dead && s.counts == t.counts && s.seen == t.seen
    && s.open.Keys == t.open.Keys
    && (forall key <- s.open :: LockAgrees(s.open[key], t.open[key], horizon))
    && |s.trades| == |t.trades|
    && (forall k :: 0 <= k < |s.trades| ==> TradesAgree(s.trades[k], t.trades[k], horizon))
  }

  lemma {:induction false} ScansAgree(rules: Rules, pair: Pair, view: View, s: Book, t: Book, bias: Bias, zones: seq<Zone>, tickTime: int, horizon: int)
    requires BooksAgree(s, t, horizon)
    ensures ScanZones(rules, pair, view, s, bias, zones, tickTime) == ScanZones(rules, pair, view, t, bias, zones, tickTime)
    decreases |zones|
  {
    if zones != [] {
      var key := KeyOf(pair, zones[0]);
      assert CountOf(s, key) == CountOf(t, key);
      assert TryZone(rules, pair, view, s, bias, zones[0], tickTime) == TryZone(rules, pair, view, t, bias, zones[0], tickTime);
      ScansAgree(rules, pair, view, s, t, bias, zones[1..], tickTime, horizon);
    }
  }

  lemma DecisionsAgree(rules: Rules, pair: Pair, view: View, s: Book, t: Book, tickTime: int, horizon: int)
    requires BooksAgree(s, t, horizon)
    ensures Decide(rules, pair, view, s, tickTime) == Decide(rules, pair, view, t, tickTime)
  {
    var bias := if rules.useTrend then BiasIn(rules, pair, view.htf) else Neutral;
    ScansAgree(rules, pair, view, s, t, bias, ZonesIn(rules, pair, view.htf), tickTime, horizon);
  }

  lemma EntriesAgree(rules: Rules, s: Book, t: Book, e: Entry, r: BacktestResult, q: BacktestResult, horizon: int)
    requires BooksAgree(s, t, horizon)
    requires ResultsAgree(rules, e.plan, r, q, horizon)
    ensures BooksAgree(Enter(rules, s, e, r), Enter(rules, t, e, q), horizon)
  {
  }

  lemma ExpiriesAgree(s: Book, t: Book, now: int, horizon: int)
    requires BooksAgree(s, t, horizon) && now <= horizon
    ensures BooksAgree(ExpireLocks(s, now), ExpireLocks(t, now), horizon)
  {
  }

  // ----- Two histories of one market -----

  /** Expiries are not negative, and a direction lock lasts at least as long as a trade can. */
  predicate LocksOutlastTrades(rules: Rules) {
    forall p <- rules.pairs ::
      rules.profileOf(p).expiryHours >= 0.0 && rules.lockExpiryMs >= ExpiryMs(rules.profileOf(p))
  }

  /** The open time of tick `i`. */
  function TickTime(rules: Rules, mkt: Market, i: nat): int
    requires |rules.pairs| > 0 && Master(rules) in mkt.ltf && i < |mkt.ltf[Master(rules)]|
  {
    mkt.ltf[Master(rules)][i].timestamp
  }

  /** `analysis_close` of tick `i`. */
  function CloseOf(rules: Rules, mkt: Market, i: nat): int
    requires |rules.pairs| > 0 && Master(rules) in mkt.ltf && i < |mkt.ltf[Master(rules)]|
  {
    TickTime(rules, mkt, i) + rules.intervalMs(Master(rules))
  }

  /** Bars that have opened by `t` are the same in both series. */
  predicate SameOpenedBars(a: seq<Candle>, b: seq<Candle>, t: int)
    requires |a| == |b|
  {
    forall k :: 0 <= k < |a| && a[k].timestamp <= t ==> a[k] == b[k]
  }

  /** Bars of interval `ms` that have closed by `close` are the same in both series. */
  predicate SameClosedBars(a: seq<Candle>, b: seq<Candle>, ms: int, close: int)
    requires |a| == |b|
  {
    SameOpenedBars(a, b, close - ms)
  }

  /** Two histories of the same bars up to their prices. */
  ghost predicate SameClock(rules: Rules, m: Market, w: Market, i: nat) {
    && ValidMarket(rules, m) && ValidMarket(rules, w)
    && Master(rules) in m.ltf && Master(rules) in w.ltf && i < |m.ltf[Master(rules)]|
    && SameTimes(m.ltf[Master(rules)], w.ltf[Master(rules)])
    && (forall p <- rules.pairs :: SameTimes(m.htf[p.htf], w.htf[p.htf]) && SameTimes(m.ltf[p.ltf], w.ltf[p.ltf]))
  }

  /** They agree on the higher-timeframe bars closed by tick `i`'s analysis close and the lower-timeframe bars opened by it. */
  ghost predicate AgreeOnOpened(rules: Rules, m: Market, w: Market, i: nat) {
    && SameClock(rules, m, w, i)
    && (forall p <- rules.pairs ::
          && SameClosedBars(m.htf[p.htf], w.htf[p.htf], rules.intervalMs(p.htf), CloseOf(rules, m, i))
          && SameOpenedBars(m.ltf[p.ltf], w.ltf[p.ltf], TickTime(rules, m, i)))
  }

  /** They agree on every bar of every timeframe closed by tick `i`'s analysis close. */
  ghost predicate AgreeOnClosed(rules: Rules, m: Market, w: Market, i: nat) {
    && SameClock(rules, m, w, i)
    && (forall p <- rules.pairs ::
          && SameClosedBars(m.htf[p.htf], w.htf[p.htf], rules.intervalMs(p.htf), CloseOf(rules, m, i))
          && SameClosedBars(m.ltf[p.ltf], w.ltf[p.ltf], rules.intervalMs(p.ltf), CloseOf(rules, m, i)))
  }

  lemma SamePrefix(a: seq<Candle>, b: seq<Candle>, t: int, upto: int)
    requires SameTimes(a, b) && SameOpenedBars(a, b, upto) && t <= upto
    ensures BisectRight(a, t) == BisectRight(b, t)
    ensures a[..BisectRight(a, t)] == b[..BisectRight(b, t)]
  {
  }

  lemma {:induction false} MasterIsFinest(rules: Rules, n: nat, k: nat)
    requires k < n <= |rules.pairs|
    ensures rules.intervalMs(MasterOf(rules, n)) <= rules.intervalMs(rules.pairs[k].ltf)
  {
    if k < n - 1 {
      MasterIsFinest(rules, n - 1, k);
    }
  }

  /** The last bar of any timeframe that has closed by a tick's analysis close opened no later than the tick. */
  lemma ClosedHaveOpened(rules: Rules, mkt: Market, j: nat, pair: Pair)
    requires ValidMarket(rules, mkt) && pair in rules.pairs
    requires Master(rules) in mkt.ltf && j < |mkt.ltf[Master(rules)]|
    ensures LastClosedOpen(CloseOf(rules, mkt, j), rules.intervalMs(pair.ltf)) <= TickTime(rules, mkt, j)
  {
    var k :| 0 <= k < |rules.pairs| && rules.pairs[k] == pair;
    MasterIsFinest(rules, |rules.pairs|, k);
    var close, ms := CloseOf(rules, mkt, j), rules.intervalMs(pair.ltf);
    assert close == close / ms * ms + close % ms;
  }

  lemma TicksAreOrdered(rules: Rules, mkt: Market, i: nat, j: nat)
    requires ValidMarket(rules, mkt) && Master(rules) in mkt.ltf && j <= i < |mkt.ltf[Master(rules)]|
    ensures TickTime(rules, mkt, j) <= TickTime(rules, mkt, i)
  {
    MasterIsListed(rules, |rules.pairs|);
  }

  /** At every tick up to `i`, what a pair is shown is the same. */
  lemma ViewsAgree(rules: Rules, m: Market, w: Market, i: nat, j: nat, pair: Pair)
    requires AgreeOnOpened(rules, m, w, i) && j <= i && pair in rules.pairs
    ensures ViewOf(rules, m, pair, CloseOf(rules, m, j)) == ViewOf(rules, w, pair, CloseOf(rules, m, j))
    ensures LtfCount(rules, m, pair, CloseOf(rules, m, j)) == LtfCount(rules, w, pair, CloseOf(rules, m, j))
  {
    var close := CloseOf(rules, m, j);
    TicksAreOrdered(rules, m, i, j);
    ClosedHaveOpened(rules, m, j, pair);
    SamePrefix(m.ltf[pair.ltf], w.ltf[pair.ltf], LastClosedOpen(close, rules.intervalMs(pair.ltf)), TickTime(rules, m, i));
    SamePrefix(m.htf[pair.htf], w.htf[pair.htf], close - rules.intervalMs(pair.htf),
               CloseOf(rules, m, i) - rules.intervalMs(pair.htf));
  }

  /** The simulations over the bars after the visible ones agree up to tick `i`. */
  lemma ResultsLockAlike(rules: Rules, m: Market, w: Market, i: nat, pair: Pair, plan: TradePlan, seen: nat)
    requires AgreeOnOpened(rules, m, w, i) && LocksOutlastTrades(rules) && pair in rules.pairs
    requires seen <= |m.ltf[pair.ltf]|
    ensures seen <= |w.ltf[pair.ltf]|
    ensures ResultsAgree(rules, plan, ResultOf(rules, m, pair, plan, seen), ResultOf(rules, w, pair, plan, seen),
                         TickTime(rules, m, i))
  {
    var a, b, horizon := m.ltf[pair.ltf], w.ltf[pair.ltf], TickTime(rules, m, i);
    var n := BisectRight(a, horizon);
    var k := if seen <= n then n - seen else 0;
    var fa, fb := a[seen..], b[seen..];
    assert SameTimes(fa, fb) && IncreasingTimes(fa) by { FutureBars(a, b, seen); }
    assert fa[..k] == fb[..k] by {
      assert forall y :: seen <= y < seen + k ==> a[y].timestamp <= horizon;
    }
    assert k < |fa| ==> fa[k].timestamp > horizon by {
      if k < |fa| { assert a[n].timestamp <= a[seen + k].timestamp; }
    }
    LocksAgree(rules, plan, rules.profileOf(pair), fa, fb, k, horizon);
  }

  lemma FutureBars(a: seq<Candle>, b: seq<Candle>, seen: nat)
    requires SameTimes(a, b) && IncreasingTimes(a) && seen <= |a|
    ensures SameTimes(a[seen..], b[seen..]) && IncreasingTimes(a[seen..])
  {
  }

  lemma {:induction false} PairsAgree(rules: Rules, m: Market, w: Market, i: nat, j: nat, s: Book, t: Book, n: nat)
    requires AgreeOnOpened(rules, m, w, i) && LocksOutlastTrades(rules) && j <= i && n <= |rules.pairs|
    requires BooksAgree(s, t, TickTime(rules, m, i))
    ensures var close, tickTime := CloseOf(rules, m, j), TickTime(rules, m, j);
            BooksAgree(PairsTick(rules, m, s, tickTime, close, n), PairsTick(rules, w, t, tickTime, close, n),
                       TickTime(rules, m, i))
    decreases n
  {
    hide Decide, Enter, ResultOf, LockUntil, ViewOf;
    if n > 0 {
      PairsAgree(rules, m, w, i, j, s, t, n - 1);
      var horizon := TickTime(rules, m, i);
      var close, tickTime, pair := CloseOf(rules, m, j), TickTime(rules, m, j), rules.pairs[n - 1];
      var s', t' := PairsTick(rules, m, s, tickTime, close, n - 1), PairsTick(rules, w, t, tickTime, close, n - 1);
      var view, seen := ViewOf(rules, m, pair, close), LtfCount(rules, m, pair, close);
      ViewsAgree(rules, m, w, i, j, pair);
      DecisionsAgree(rules, pair, view, s', t', tickTime, horizon);
      var e := Decide(rules, pair, view, s', tickTime);
      if e.Some? {
        ResultsLockAlike(rules, m, w, i, pair, e.value.plan, seen);
        EntriesAgree(rules, s', t', e.value, ResultOf(rules, m, pair, e.value.plan, seen),
                     ResultOf(rules, w, pair, e.value.plan, seen), horizon);
      }
    }
  }

  lemma TicksAgree(rules: Rules, m: Market, w: Market, i: nat, j: nat, s: Book, t: Book)
    requires AgreeOnOpened(rules, m, w, i) && LocksOutlastTrades(rules) && j <= i
    requires BooksAgree(s, t, TickTime(rules, m, i))
    ensures BooksAgree(Tick(rules, m, s, j), Tick(rules, w, t, j), TickTime(rules, m, i))
  {
    hide PairsTick;
    var now, horizon := TickTime(rules, m, j), TickTime(rules, m, i);
    TicksAreOrdered(rules, m, i, j);
    var s', t' := ExpireLocks(s, now), ExpireLocks(t, now);
    assert BooksAgree(s', t', horizon) by { ExpiriesAgree(s, t, now, horizon); }
    PairsAgree(rules, m, w, i, j, s', t', |rules.pairs|);
  }

  lemma {:induction false} RunsAgree(rules: Rules, m: Market, w: Market, i: nat, start: nat, upto: nat)
    requires AgreeOnOpened(rules, m, w, i) && LocksOutlastTrades(rules) && upto <= i + 1
    ensures BooksAgree(RunTo(rules, m, start, upto), RunTo(rules, w, start, upto), TickTime(rules, m, i))
    decreases upto
  {
    hide Tick;
    if start < upto {
      RunsAgree(rules, m, w, i, start, upto - 1);
      TicksAgree(rules, m, w, i, upto - 1, RunTo(rules, m, start, upto - 1), RunTo(rules, w, start, upto - 1));
    }
  }

  function Admitted(book: Book): seq<Entry> {
    seq(|book.trades|, k requires 0 <= k < |book.trades| => book.trades[k].entry)
  }

  /** Every trade whose lock has ended in either run has the same result in both. */
  predicate EndedAlike(a: Book, b: Book, now: int) {
    && |a.trades| == |b.trades|
    && forall k :: 0 <= k < |a.trades| && (a.trades[k].lockUntil <= now || b.trades[k].lockUntil <= now) ==>
         a.trades[k] == b.trades[k]
  }

  lemma DifferentTrades(a: Book, b: Book)
    requires |a.trades| != |b.trades|
    ensures Admitted(a) != Admitted(b)
  {
    assert |Admitted(a)| == |a.trades| && |Admitted(b)| == |b.trades|;
  }

  /**
   Whatever the timeframes, no decision depends on a bar that opens after its tick: histories
   that agree on the higher-timeframe bars closed, and the lower-timeframe bars opened, by
   tick `i` admit the same setups, with the same plans, attempt numbers and times, up to it,
   and give every trade whose lock has ended by then the same result.
   */
  lemma NoUnopenedBars(rules: Rules, m: Market, w: Market, i: nat, start: nat, upto: nat)
    requires AgreeOnOpened(rules, m, w, i) && LocksOutlastTrades(rules) && upto <= i + 1
    ensures var a, b := RunTo(rules, m, start, upto), RunTo(rules, w, start, upto);
            && Admitted(a) == Admitted(b)
            && EndedAlike(a, b, TickTime(rules, m, i))
  {
    RunsAgree(rules, m, w, i, start, upto);
  }

  /**
   No look-ahead: with lower timeframes of one length, agreement on every bar closed by tick
   `i`'s analysis close is enough, since a bar that has opened by a tick has closed by then.
   */
  lemma NoLookAhead(rules: Rules, m: Market, w: Market, i: nat, start: nat, upto: nat)
    requires AgreeOnClosed(rules, m, w, i) && LocksOutlastTrades(rules) && upto <= i + 1
    requires forall p <- rules.pairs :: rules.intervalMs(p.ltf) == rules.intervalMs(Master(rules))
    ensures var a, b := RunTo(rules, m, start, upto), RunTo(rules, w, start, upto);
            && Admitted(a) == Admitted(b)
            && EndedAlike(a, b, TickTime(rules, m, i))
  {
    NoUnopenedBars(rules, m, w, i, start, upto);
  }
}
