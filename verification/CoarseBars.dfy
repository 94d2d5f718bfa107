/**
 Why closed bars are not enough once a lower timeframe is coarser than the master's. A trade
 stopped out on the coarse bar that opens at a tick frees its direction at that very tick,
 while the bar is still open, and the next setup is admitted on what the bar will do.
 */
module CoarseBars {
  import opened Domain
  import opened Lifecycle
  import opened Giveback
  import opened Backtest
  import opened LookAhead

  const FINE := Pair("H", "f")
  const COARSE := Pair("H", "c")

  /** Two zones of one direction, told apart by their boxes. */
  const NEAR := Zone(1, 0, LONG, 2.0, 1.0, 12.0)
  const FAR := Zone(2, 0, LONG, 3.0, 1.0, 12.0)

  function Flat(t: int): Candle {
    Candle(t, 10.0, 10.0, 10.0, 10.0)
  }

  /** A trade lasts for many bars of this length. */
  function ProfOf(ms: int): Profile {
    Profile(ms as real, true, 50.0, 50.0)
  }

  lemma ExpiryOf(ms: nat)
    ensures ExpiryMs(ProfOf(ms)) == ms * 3600000
  {
    assert ms as real * 3600000.0 == (ms * 3600000) as real;
  }

  /** A plan as the builder dates it: created when its candle opens, triggered when it closes. */
  function PlanAt(t: nat, ms: int): TradePlan {
    Plan(LONG, 10.0, 9.0, 11.0, 12.0, 2.0, 1.0, t, t + ms)
  }

  function PlanOn(c: Candle, ms: int): Option<TradePlan> {
    if c.timestamp >= 0 then Some(PlanAt(c.timestamp, ms)) else None
  }

  /** The near zone is entered on the last visible bar, the far one on the first; only the coarse pair trades. */
  function TwoZones(fine: int, coarse: int): Rules {
    Rules([FINE, COARSE], _ => 3, (iv: string) => if iv == "f" then fine else coarse, _ => 2 * coarse, _ => ProfOf(coarse),
          ExpiryMs(ProfOf(coarse)),
          false, false, true, 1, 0.0,
          _ => Neutral,
          (_, _) => [NEAR, FAR],
          (_, _, _) => true,
          (cs: seq<Candle>, box: Box) => if cs == [] then None else Some(if box.high == 2.0 then cs[|cs| - 1] else cs[0]),
          (pair: Pair, _: Zone, c: Candle) => if pair == COARSE then PlanOn(c, coarse) else None)
  }

  function FineTime(fine: int, n: nat, now: int, k: int): int {
    now - (n - 1 - k) * fine
  }

  predicate Aligned(t: int, ms: int)
    requires ms > 0
  {
    t % ms == 0
  }

  /** `n` fine bars up to `now`, and coarse bars of which the last opens at `now`. */
  function MarketWith(fine: int, coarse: int, n: nat, now: int, last: Candle): Market {
    Market(map["H" := [Flat(now - coarse)]],
           map["f" := seq(n, k => Flat(FineTime(fine, n, now, k))),
               "c" := [Flat(now - 2 * coarse), Flat(now - coarse), last]])
  }

  lemma {:induction false} NothingBuilt(rules: Rules, pair: Pair, view: View, book: Book, bias: Bias, zones: seq<Zone>, tickTime: int)
    requires forall z, r :: rules.build(pair, z, r) == None
    ensures ScanZones(rules, pair, view, book, bias, zones, tickTime) == None
    decreases |zones|
  {
    if zones != [] {
      NothingBuilt(rules, pair, view, book, bias, zones[1..], tickTime);
    }
  }

  /** When the coarse pair's first trade is seen to close on the last bar, and when it is not. */
  lemma LockFromLastBar(fine: int, coarse: nat, now: nat, last: Candle)
    requires last.timestamp == now && 0 < coarse <= now
    ensures var rules, plan, prof := TwoZones(fine, coarse), PlanAt(now - coarse, coarse), ProfOf(coarse);
            var until := LockUntil(rules, plan, Simulated(plan, prof, 0.0, [last]).result);
            && (last.low <= 9.0 && last.high < 11.0 ==> until == now)
            && (last == Flat(now) ==> until > now)
  {
    var plan: Plan, prof := PlanAt(now - coarse, coarse), ProfOf(coarse);
    ExpiryOf(coarse);
    var v := Judge(plan, prof, TRIGGERED, last);
    assert last.low <= 9.0 && last.high < 11.0 ==> v == StopOut;
    assert last == Flat(now) ==> v == Hold && Next(plan, prof, FRESH, last) == FRESH;
    assert [last][0] == last && [last][1..] == [];
    assert PlainRun(plan, prof, FRESH, []).result == NEVER_CLOSED;
    assert last == Flat(now) ==> PlainRun(plan, prof, FRESH, [last]).result == NEVER_CLOSED;
    assert last == Flat(now) ==> Simulated(plan, prof, 0.0, [last]).result == NEVER_CLOSED;
    assert v == StopOut ==> PlainRun(plan, prof, FRESH, [last]).result.closeTs == Some(now);
  }

  /** The coarse pair's view at both ticks: two closed bars. */
  lemma CoarseView(fine: int, coarse: int, n: nat, now: int, last: Candle, close: int)
    requires 0 < fine < coarse && Aligned(now, coarse) && last.timestamp == now && now <= close < now + coarse
    ensures var rules, mkt := TwoZones(fine, coarse), MarketWith(fine, coarse, n, now, last);
            && LtfCount(rules, mkt, COARSE, close) == 2
            && ViewOf(rules, mkt, COARSE, close)
               == View([Flat(now - coarse)], [Flat(now - 2 * coarse), Flat(now - coarse)], now - coarse)
  {
    var q := now / coarse;
    assert now == q * coarse;
    LastClosedOfBar(q, coarse, close);
    var cs := [Flat(now - 2 * coarse), Flat(now - coarse), last];
    var hs := [Flat(now - coarse)];
    assert cs[0].timestamp < cs[1].timestamp == now - coarse < cs[2].timestamp;
    assert BisectRight(cs, now - coarse) == 2;
    assert hs[0].timestamp <= close - coarse;
    assert BisectRight(hs, close - coarse) == 1;
    assert cs[..2] == [Flat(now - 2 * coarse), Flat(now - coarse)];
    assert hs[..1] == hs;
  }

  lemma LastClosedOfBar(q: int, ms: int, close: int)
    requires ms > 0 && q * ms <= close < q * ms + ms
    ensures LastClosedOpen(close, ms) == q * ms - ms
  {
    var d := close / ms;
    assert close == d * ms + close % ms;
    assert d - q >= 1 ==> (d - q) * ms >= ms;
    assert d - q <= -1 ==> (d - q) * ms <= -ms;
  }

  lemma BuildsPlans(fine: int, coarse: int, z: Zone, c: Candle)
    ensures TwoZones(fine, coarse).build(COARSE, z, c) == PlanOn(c, coarse)
    ensures c.timestamp >= 0 ==> PlanOn(c, coarse) == Some(PlanAt(c.timestamp, coarse))
    ensures TwoZones(fine, coarse).intervalMs(COARSE.ltf) == coarse
  {}

  lemma BuildsAtRejection(fine: int, coarse: int)
    ensures PlansStartAtRejection(TwoZones(fine, coarse))
  {
    var rules := TwoZones(fine, coarse);
    forall pair, z, c | rules.build(pair, z, c).Some?
      ensures var plan := rules.build(pair, z, c).value;
              plan.createdAt == c.timestamp && plan.triggeredAt == c.timestamp + rules.intervalMs(pair.ltf)
    {
      BuildsPlans(fine, coarse, z, c);
      assert pair == COARSE;
    }
  }

  /** What the coarse pair decides on that view. */
  lemma CoarseDecision(fine: int, coarse: int, now: nat, book: Book, tickTime: int)
    requires 0 < fine < coarse && 2 * coarse + 2 <= now
    ensures var rules := TwoZones(fine, coarse);
            var view := View([Flat(now - coarse)], [Flat(now - 2 * coarse), Flat(now - coarse)], now - coarse);
            var near, far := KeyOf(COARSE, NEAR), KeyOf(COARSE, FAR);
            && (book == EMPTY_BOOK ==>
                  Decide(rules, COARSE, view, book, tickTime)
                  == Some(Entry(COARSE, NEAR, Flat(now - coarse), PlanAt(now - coarse, coarse), 1, tickTime)))
            && (near in book.dead && far !in book.dead && far !in book.counts
                && RejectionKey(COARSE, now - 2 * coarse) !in book.seen ==>
                  Decide(rules, COARSE, view, book, tickTime)
                  == if LockOf(rules, COARSE, LONG) in book.open then None
                     else Some(Entry(COARSE, FAR, Flat(now - 2 * coarse), PlanAt(now - 2 * coarse, coarse), 1, tickTime)))
  {
    var rules := TwoZones(fine, coarse);
    var ltf := [Flat(now - 2 * coarse), Flat(now - coarse)];
    assert ltf[0..] == ltf;
    assert BisectLeft(ltf, 1) == BisectLeft(ltf, 2) == 0;
    var view := View([Flat(now - coarse)], ltf, now - coarse);
    assert EntryIn(rules, NEAR, ltf) == Some(Flat(now - coarse));
    assert EntryIn(rules, FAR, ltf) == Some(Flat(now - 2 * coarse));
    assert ZonesIn(rules, COARSE, view.htf) == [NEAR, FAR];
    assert [NEAR, FAR][1..] == [FAR] && [FAR][1..] == [];
    var first := TryZone(rules, COARSE, view, book, Neutral, NEAR, tickTime);
    var second := TryZone(rules, COARSE, view, book, Neutral, FAR, tickTime);
    BuildsPlans(fine, coarse, NEAR, Flat(now - coarse));
    BuildsPlans(fine, coarse, FAR, Flat(now - 2 * coarse));
    assert ScanZones(rules, COARSE, view, book, Neutral, [FAR], tickTime) == second by {
      assert ScanZones(rules, COARSE, view, book, Neutral, [], tickTime) == None;
    }
    assert Decide(rules, COARSE, view, book, tickTime) == if first.Some? then first else second;
    assert KeyOf(COARSE, NEAR) in book.dead ==> first == None;
    assert LockOf(rules, COARSE, LONG) in book.open ==> second == None;
  }

  lemma FineDecision(fine: int, coarse: int, view: View, book: Book, tickTime: int)
    ensures Decide(TwoZones(fine, coarse), FINE, view, book, tickTime) == None
  {
    var rules := TwoZones(fine, coarse);
    NothingBuilt(rules, FINE, view, book, Neutral, ZonesIn(rules, FINE, view.htf), tickTime);
  }

  // ----- The two ticks -----

  lemma Setting(fine: int, coarse: int)
    requires 60000 <= fine < coarse
    ensures var rules := TwoZones(fine, coarse);
            Master(rules) == "f" && WarmUp(rules) == Larger(100, 3 * (coarse / 60000 / (fine / 60000)))
  {
    var rules := TwoZones(fine, coarse);
    assert MasterOf(rules, 1) == "f" && MasterOf(rules, 2) == "f";
    assert MaxLookback(rules, 0) == 0 && MaxLookback(rules, 1) == 3 && MaxLookback(rules, 2) == 3;
    assert coarse / 60000 >= 0;
    assert MaxHtfMinutes(rules, 0) == 0 && MaxHtfMinutes(rules, 1) == MaxHtfMinutes(rules, 2) == coarse / 60000;
  }

  lemma FineBarsIncrease(fine: int, n: nat, now: int)
    requires fine > 0
    ensures IncreasingTimes(seq(n, k => Flat(FineTime(fine, n, now, k))))
  {
    forall i, j | 0 <= i < j < n ensures FineTime(fine, n, now, i) < FineTime(fine, n, now, j) {
      assert (j - i) * fine > 0;
    }
  }

  lemma MarketIsValid(fine: int, coarse: int, n: nat, now: nat, last: Candle)
    requires 0 < fine < coarse && last.timestamp == now
    ensures ValidMarket(TwoZones(fine, coarse), MarketWith(fine, coarse, n, now, last))
  {
    FineBarsIncrease(fine, n, now);
  }

  /** The coarse pair's part of a tick that closes while its last bar is open. */
  lemma CoarseTick(fine: int, coarse: int, n: nat, now: nat, last: Candle, book: Book, tickTime: int, close: int)
    requires 0 < fine < coarse && Aligned(now, coarse) && last.timestamp == now && now <= close < now + coarse
    ensures var rules, mkt := TwoZones(fine, coarse), MarketWith(fine, coarse, n, now, last);
            var view := View([Flat(now - coarse)], [Flat(now - 2 * coarse), Flat(now - coarse)], now - coarse);
            var e := Decide(rules, COARSE, view, book, tickTime);
            PairTick(rules, mkt, COARSE, book, tickTime, close)
            == if e.None? then book else Enter(rules, book, e.value, Simulated(e.value.plan, ProfOf(coarse), 0.0, [last]).result)
  {
    CoarseView(fine, coarse, n, now, last, close);
    hide Decide, Enter, Simulated, ViewOf, LtfCount;
    assert MarketWith(fine, coarse, n, now, last).ltf["c"][2..] == [last];
  }

  lemma FineTick(fine: int, coarse: int, n: nat, now: nat, last: Candle, book: Book, tickTime: int, close: int)
    requires 0 < fine < coarse
    ensures var rules, mkt := TwoZones(fine, coarse), MarketWith(fine, coarse, n, now, last);
            PairTick(rules, mkt, FINE, book, tickTime, close) == book
  {
    var rules, mkt := TwoZones(fine, coarse), MarketWith(fine, coarse, n, now, last);
    FineDecision(fine, coarse, ViewOf(rules, mkt, FINE, close), book, tickTime);
    hide Decide, Enter, Simulated, ViewOf, LtfCount;
  }

  /** One such market, with the facts the ticks rely on. */
  datatype Stage = Stage(fine: int, coarse: int, n: nat, now: nat, last: Candle)

  predicate Set(st: Stage) {
    && 60000 <= st.fine < st.coarse && st.n >= 2 && st.last.timestamp == st.now
    && Aligned(st.now, st.coarse) && 2 * st.coarse + 2 <= st.now
  }

  function RulesOf(st: Stage): Rules {
    TwoZones(st.fine, st.coarse)
  }

  function MarketOf(st: Stage): Market {
    MarketWith(st.fine, st.coarse, st.n, st.now, st.last)
  }

  lemma Runnable(st: Stage)
    requires Set(st)
    ensures ValidMarket(RulesOf(st), MarketOf(st)) && Master(RulesOf(st)) == "f"
    ensures "f" in MarketOf(st).ltf && |MarketOf(st).ltf["f"]| == st.n
  {
    MarketIsValid(st.fine, st.coarse, st.n, st.now, st.last);
    Setting(st.fine, st.coarse);
  }

  function TickAt(st: Stage, book: Book, i: nat): Book
    requires Set(st) && i < st.n
  {
    Runnable(st);
    Tick(RulesOf(st), MarketOf(st), book, i)
  }

  function TimeAt(st: Stage, i: nat): int {
    FineTime(st.fine, st.n, st.now, i)
  }

  function CoarsePart(st: Stage, book: Book, tickTime: int, close: int): Book
    requires Set(st)
  {
    PairTick(RulesOf(st), MarketOf(st), COARSE, book, tickTime, close)
  }

  /** A tick releases the locks that have run out, then does the coarse pair's part. */
  lemma TickOfCoarse(st: Stage, book: Book, i: nat)
    requires Set(st) && i < st.n
    ensures TickAt(st, book, i) == CoarsePart(st, ExpireLocks(book, TimeAt(st, i)), TimeAt(st, i), TimeAt(st, i) + st.fine)
  {
    hide PairTick, ExpireLocks, TimeAt, Master, ValidMarket, MarketOf, RulesOf, Set;
    Runnable(st);
    var rules, mkt, tickTime := RulesOf(st), MarketOf(st), TimeAt(st, i);
    var open, close := ExpireLocks(book, tickTime), tickTime + st.fine;
    FinePart(st, open, i);
    assert PairsTick(rules, mkt, open, tickTime, close, 0) == open;
    assert PairsTick(rules, mkt, open, tickTime, close, 1) == open;
  }

  lemma FinePart(st: Stage, book: Book, i: nat)
    requires Set(st) && i < st.n
    ensures var rules, mkt := RulesOf(st), MarketOf(st);
            && "f" in mkt.ltf && |mkt.ltf["f"]| == st.n && mkt.ltf["f"][i].timestamp == TimeAt(st, i)
            && rules.pairs == [FINE, COARSE] && rules.intervalMs("f") == st.fine
            && "H" in mkt.htf && PairTick(rules, mkt, FINE, book, TimeAt(st, i), TimeAt(st, i) + st.fine) == book
  {
    hide PairTick, FineTime, Aligned;
    FineTick(st.fine, st.coarse, st.n, st.now, st.last, book, TimeAt(st, i), TimeAt(st, i) + st.fine);
  }

  function NearPlan(st: Stage): TradePlan
    requires Set(st)
  {
    PlanAt(st.now - st.coarse, st.coarse)
  }

  function NearEntry(st: Stage): Entry
    requires Set(st)
  {
    Entry(COARSE, NEAR, Flat(st.now - st.coarse), NearPlan(st), 1, st.now - st.fine)
  }

  function FarEntry(st: Stage): Entry
    requires Set(st)
  {
    Entry(COARSE, FAR, Flat(st.now - 2 * st.coarse), PlanAt(st.now - 2 * st.coarse, st.coarse), 1, st.now)
  }

  function Outcome(st: Stage, e: Entry): BacktestResult {
    Simulated(e.plan, ProfOf(st.coarse), 0.0, [st.last]).result
  }

  /** Until when the near zone's trade locks its direction. */
  function NearUntil(st: Stage): int
    requires Set(st)
  {
    LockUntil(RulesOf(st), NearPlan(st), Outcome(st, NearEntry(st)))
  }

  /** The coarse pair's part on empty books, and on books in which the near zone is dead. */
  lemma PartOfTick(st: Stage, b: Book)
    requires Set(st)
    ensures CoarsePart(st, EMPTY_BOOK, st.now - st.fine, st.now)
         == Enter(RulesOf(st), EMPTY_BOOK, NearEntry(st), Outcome(st, NearEntry(st)))
    ensures KeyOf(COARSE, NEAR) in b.dead && KeyOf(COARSE, FAR) !in b.dead && KeyOf(COARSE, FAR) !in b.counts
            && RejectionKey(COARSE, st.now - 2 * st.coarse) !in b.seen ==>
      CoarsePart(st, b, st.now, st.now + st.fine)
      == if LockOf(RulesOf(st), COARSE, LONG) in b.open then b else 
         Enter(RulesOf(st), b, FarEntry(st), Outcome(st, FarEntry(st)))
  {
    hide TwoZones, MarketWith, Decide, PairTick, Enter, Simulated, KeyOf, LockOf, Aligned;
    CoarseTick(st.fine, st.coarse, st.n, st.now, st.last, EMPTY_BOOK, st.now - st.fine, st.now);
    CoarseDecision(st.fine, st.coarse, st.now, EMPTY_BOOK, st.now - st.fine);
    CoarseTick(st.fine, st.coarse, st.n, st.now, st.last, b, st.now, st.now + st.fine);
    CoarseDecision(st.fine, st.coarse, st.now, b, st.now);
  }

  /** The books with the near zone's trade, whose direction is locked until `until`. */
  predicate NearTraded(st: Stage, b: Book, until: int) {
    && |b.trades| == 1
    && b.dead == {KeyOf(COARSE, NEAR)} == b.counts.Keys
    && b.seen == {RejectionKey(COARSE, st.now - st.coarse)}
    && b.open == map[PairLock(COARSE, LONG) := until]
  }

  lemma LastTimes(st: Stage)
    requires Set(st)
    ensures st.n >= 2 && TimeAt(st, st.n - 2) == st.now - st.fine && TimeAt(st, st.n - 1) == st.now
  {}

  lemma NothingToExpire(t: int)
    ensures ExpireLocks(EMPTY_BOOK, t) == EMPTY_BOOK
  {}

  lemma EnterNear(st: Stage)
    requires Set(st)
    ensures NearTraded(st, Enter(RulesOf(st), EMPTY_BOOK, NearEntry(st), Outcome(st, NearEntry(st))), NearUntil(st))
  {
    hide LockUntil, Outcome, Aligned;
  }

  /** What the coarse pair may do once locks have been released. */
  lemma Freed(st: Stage, b: Book, until: int)
    requires Set(st) && NearTraded(st, b, until)
    ensures var freed := ExpireLocks(b, st.now);
            && |freed.trades| == 1
            && KeyOf(COARSE, NEAR) in freed.dead && KeyOf(COARSE, FAR) !in freed.dead && KeyOf(COARSE, FAR) !in freed.counts
            && RejectionKey(COARSE, st.now - 2 * st.coarse) !in freed.seen
            && (LockOf(RulesOf(st), COARSE, LONG) in freed.open <==> until > st.now)
  {
    hide Aligned;
  }

  lemma EnterAdds(rules: Rules, b: Book, e: Entry, r: BacktestResult)
    ensures |Enter(rules, b, e, r).trades| == |b.trades| + 1
  {}

  lemma FirstTick(st: Stage)
    requires Set(st)
    ensures st.n >= 2
    ensures NearTraded(st, TickAt(st, EMPTY_BOOK, st.n - 2), NearUntil(st))
  {
    hide *;
    NothingToExpire(st.now - st.fine);
    LastTimes(st);
    EnterNear(st);
    TickOfCoarse(st, EMPTY_BOOK, st.n - 2);
    PartOfTick(st, EMPTY_BOOK);
  }

  lemma SecondTick(st: Stage, b: Book, until: int)
    requires Set(st) && NearTraded(st, b, until)
    ensures st.n >= 1
    ensures |TickAt(st, b, st.n - 1).trades| == if until <= st.now then 2 else 1
  {
    hide *;
    var freed := ExpireLocks(b, st.now);
    LastTimes(st);
    Freed(st, b, until);
    EnterAdds(RulesOf(st), freed, FarEntry(st), Outcome(st, FarEntry(st)));
    TickOfCoarse(st, b, st.n - 1);
    PartOfTick(st, freed);
  }

  /** The run over the last two ticks. */
  function RunOf(st: Stage): Book
    requires Set(st)
  {
    Runnable(st);
    RunTo(RulesOf(st), MarketOf(st), st.n - 2, st.n)
  }

  lemma TradesOfRun(st: Stage)
    requires Set(st)
    ensures st.last == Flat(st.now) ==> |RunOf(st).trades| == 1
    ensures st.last.low <= 9.0 && st.last.high < 11.0 ==> |RunOf(st).trades| == 2
  {
    hide *;
    RunIsTwoTicks(st);
    FirstTick(st);
    LockOfStage(st);
    SecondTick(st, TickAt(st, EMPTY_BOOK, st.n - 2), NearUntil(st));
  }

  lemma LockOfStage(st: Stage)
    requires Set(st)
    ensures var until := NearUntil(st);
            && (st.last.low <= 9.0 && st.last.high < 11.0 ==> until == st.now)
            && (st.last == Flat(st.now) ==> until > st.now)
  {
    LockFromLastBar(st.fine, st.coarse, st.now, st.last);
  }

  lemma RunIsTwoTicks(st: Stage)
    requires Set(st)
    ensures RunOf(st) == TickAt(st, TickAt(st, EMPTY_BOOK, st.n - 2), st.n - 1)
  {
    hide Tick, RulesOf, MarketOf, ValidMarket, Master, Aligned;
    Runnable(st);
    assert RunTo(RulesOf(st), MarketOf(st), st.n - 2, st.n - 2) == EMPTY_BOOK;
    assert RunTo(RulesOf(st), MarketOf(st), st.n - 2, st.n - 1) == TickAt(st, EMPTY_BOOK, st.n - 2);
  }

  lemma ManyBars(n: nat, coarse: int)
    requires n >= 102 && coarse > 1
    ensures Aligned(n * coarse, coarse) && 2 * coarse + 2 <= n * coarse
  {
    var p := n * coarse;
    var d := p / coarse;
    assert p == d * coarse + p % coarse;
    assert (n - d) * coarse == p % coarse;
    assert n - d >= 1 ==> (n - d) * coarse >= coarse;
    assert n - d <= -1 ==> (n - d) * coarse <= -coarse;
    assert n == d ==> p % coarse == 0;
    assert (n - 102) * coarse >= 0;
  }

  /** Two such markets differ in a bar that is still open at the last analysis close. */
  lemma SameUntilLastBar(st: Stage, last: Candle)
    requires Set(st) && last.timestamp == st.now && WellFormed(st.last) && WellFormed(last)
    ensures AgreeOnClosed(RulesOf(st), MarketOf(st), MarketOf(st.(last := last)), st.n - 1)
    ensures RulesOf(st) == RulesOf(st.(last := last)) && LocksOutlastTrades(RulesOf(st))
    ensures AllPricesFormed(RulesOf(st), MarketOf(st))
  {
    Runnable(st);
    Runnable(st.(last := last));
    assert TimeAt(st, st.n - 1) == st.now;
    hide ValidMarket, Master;
  }

  predicate AllPricesFormed(rules: Rules, mkt: Market) {
    forall p <- rules.pairs :: p.ltf in mkt.ltf && AllWellFormed(mkt.ltf[p.ltf])
  }

  /**
   For every two lengths of lower timeframe there are rules and two histories that agree on every
   bar closed by the last tick's analysis close, and of which whole runs admit different setups.
   */
  lemma CoarseBarsLookAhead(fine: int, coarse: int) returns (rules: Rules, m: Market, w: Market)
    requires 60000 <= fine < coarse
    ensures (set p <- rules.pairs :: rules.intervalMs(p.ltf)) == {fine, coarse} && LocksOutlastTrades(rules)
    ensures PlansStartAtRejection(rules) && AllPricesFormed(rules, m) && AllPricesFormed(rules, w)
    ensures |rules.pairs| > 0 && rules.intervalMs(Master(rules)) == fine && Master(rules) in m.ltf
    ensures var n := |m.ltf[Master(rules)]|;
            && WarmUp(rules) < n && AgreeOnClosed(rules, m, w, n - 1)
            && Admitted(RunTo(rules, m, WarmUp(rules), n)) != Admitted(RunTo(rules, w, WarmUp(rules), n))
  {
    hide *;
    var n, now := EnoughBars(fine, coarse);
    var a := Stage(fine, coarse, n, now, Candle(now, 10.0, 10.0, 8.0, 8.0));
    var b := a.(last := Flat(now));
    FlatCandle(now);
    rules, m, w := RulesOf(a), MarketOf(a), MarketOf(b);
    StageRules(a);
    StageRules(b);
    SameUntilLastBar(a, b.last);
    SameUntilLastBar(b, a.last);
    TradesOfRun(a);
    TradesOfRun(b);
    DifferentTrades(RunOf(a), RunOf(b));
  }

  lemma EnoughBars(fine: int, coarse: int) returns (n: nat, now: nat)
    requires 60000 <= fine < coarse
    ensures forall last: Candle :: last.timestamp == now ==>
      Set(Stage(fine, coarse, n, now, last)) && WarmUp(RulesOf(Stage(fine, coarse, n, now, last))) == n - 2
  {
    Setting(fine, coarse);
    n := WarmUp(TwoZones(fine, coarse)) + 2;
    now := n * coarse;
    ManyBars(n, coarse);
    Setting(fine, coarse);
    hide Aligned, WarmUp, TwoZones;
  }

  lemma FlatCandle(t: int)
    ensures Flat(t).timestamp == t && WellFormed(Flat(t)) && WellFormed(Candle(t, 10.0, 10.0, 8.0, 8.0))
  {}

  lemma StageRules(st: Stage)
    requires Set(st)
    ensures var rules, mkt := RulesOf(st), MarketOf(st);
            && (set p <- rules.pairs :: rules.intervalMs(p.ltf)) == {st.fine, st.coarse} && |rules.pairs| > 0
            && ValidMarket(rules, mkt) && Master(rules) == "f" && rules.intervalMs("f") == st.fine
            && PlansStartAtRejection(rules)
            && "f" in mkt.ltf && |mkt.ltf["f"]| == st.n >= 2
            && RunOf(st) == RunTo(rules, mkt, st.n - 2, st.n)
  {
    hide Aligned, ValidMarket, Master, RunTo, PlansStartAtRejection;
    Runnable(st);
    BuildsAtRejection(st.fine, st.coarse);
    var rules := RulesOf(st);
    assert rules.pairs == [FINE, COARSE];
    assert rules.pairs[0] in rules.pairs && rules.pairs[1] in rules.pairs;
  }
}
