/**
 The market-structure table of `MultiPairBacktester.run` in src/app/backtesting/backtest.py.
 It is keyed by the higher timeframe alone, so a pair can be handed the structure another
 pair computed on a window of a different length.
 */
module StructureTable {
  import opened Domain
  import opened Lifecycle
  import opened Giveback
  import opened Backtest
  import opened LookAhead
  import C = CoarseBars

  type Table = map<string, (int, Bias)>

  /** The table's answer for what is visible, and the table afterwards. */
  function Lookup(rules: Rules, table: Table, pair: Pair, visible: seq<Candle>): (Bias, Table)
    requires visible != []
  {
    var lastTime := visible[|visible| - 1].timestamp;
    if pair.htf !in table || table[pair.htf].0 != lastTime then
      var bias := rules.detect(Window(visible, rules.lookback(pair)));
      (bias, table[pair.htf := (lastTime, bias)])
    else (table[pair.htf].1, table)
  }

  /** One pair at one tick with the table in use. */
  function TabledPairTick(rules: Rules, mkt: Market, pair: Pair, book: Book, table: Table, tickTime: int, close: int): (Book, Table)
    requires ValidMarket(rules, mkt) && pair in rules.pairs
  {
    var view := ViewOf(rules, mkt, pair, close);
    if !EnoughBars(rules, pair, view) then (book, table)
    else
      var (bias, t) := if rules.useTrend then Lookup(rules, table, pair, view.htf) else (Neutral, table);
      (Settled(rules, mkt, pair, book, DecideOn(rules, pair, view, book, bias, tickTime), close), t)
  }

  function TabledPairsTick(rules: Rules, mkt: Market, book: Book, table: Table, tickTime: int, close: int, n: nat): (Book, Table)
    requires ValidMarket(rules, mkt) && n <= |rules.pairs|
  {
    if n == 0 then (book, table)
    else
      var (b, t) := TabledPairsTick(rules, mkt, book, table, tickTime, close, n - 1);
      TabledPairTick(rules, mkt, rules.pairs[n - 1], b, t, tickTime, close)
  }

  function TabledTick(rules: Rules, mkt: Market, book: Book, table: Table, i: nat): (Book, Table)
    requires ValidMarket(rules, mkt) && Master(rules) in mkt.ltf && i < |mkt.ltf[Master(rules)]|
  {
    var tickTime := mkt.ltf[Master(rules)][i].timestamp;
    TabledPairsTick(rules, mkt, ExpireLocks(book, tickTime), table, tickTime,
                    tickTime + rules.intervalMs(Master(rules)), |rules.pairs|)
  }

  /** The run with the structure table. */
  function TabledRunTo(rules: Rules, mkt: Market, start: nat, upto: nat): (Book, Table)
    requires ValidMarket(rules, mkt) && Master(rules) in mkt.ltf && upto <= |mkt.ltf[Master(rules)]|
    decreases upto
  {
    if upto <= start then (EMPTY_BOOK, map[])
    else
      var (book, table) := TabledRunTo(rules, mkt, start, upto - 1);
      TabledTick(rules, mkt, book, table, upto - 1)
  }

  // ----- One lookback per higher timeframe -----

  /** Pairs that share a higher timeframe share a lookback: the structure table is keyed by it alone. */
  predicate SharedLookback(rules: Rules) {
    forall p <- rules.pairs, q <- rules.pairs :: p.htf == q.htf ==> rules.lookback(p) == rules.lookback(q)
  }

  /** With increasing times, the last bar's time determines how many bars are visible. */
  lemma LastTimeDetermines(cs: seq<Candle>, m: nat, n: nat)
    requires IncreasingTimes(cs) && 0 < m <= |cs| && 0 < n <= |cs|
    requires cs[m - 1].timestamp == cs[n - 1].timestamp
    ensures m == n
  {
  }

  /** Whatever the table holds for a bar is right for every pair that can ask. */
  ghost predicate TableSound(rules: Rules, mkt: Market, table: Table)
    requires ValidMarket(rules, mkt)
  {
    forall p, n :: p in rules.pairs && p.htf in table && 0 < n <= |mkt.htf[p.htf]|
                   && mkt.htf[p.htf][n - 1].timestamp == table[p.htf].0 ==>
      table[p.htf].1 == BiasIn(rules, p, mkt.htf[p.htf][..n])
  }

  lemma LookupIsSound(rules: Rules, mkt: Market, table: Table, pair: Pair, n: nat)
    requires ValidMarket(rules, mkt) && SharedLookback(rules) && TableSound(rules, mkt, table)
    requires pair in rules.pairs && 0 < n <= |mkt.htf[pair.htf]|
    ensures var (bias, t) := Lookup(rules, table, pair, mkt.htf[pair.htf][..n]);
            bias == BiasIn(rules, pair, mkt.htf[pair.htf][..n]) && TableSound(rules, mkt, t)
  {
    forall p, m | p in rules.pairs && p.htf == pair.htf && 0 < m <= |mkt.htf[p.htf]|
                  && mkt.htf[p.htf][m - 1].timestamp == mkt.htf[p.htf][n - 1].timestamp
      ensures BiasIn(rules, pair, mkt.htf[pair.htf][..n]) == BiasIn(rules, p, mkt.htf[p.htf][..m])
    {
      LastTimeDetermines(mkt.htf[p.htf], m, n);
    }
  }

  lemma PairIsTransparent(rules: Rules, mkt: Market, pair: Pair, book: Book, table: Table, tickTime: int, close: int)
    requires ValidMarket(rules, mkt) && pair in rules.pairs && TableSound(rules, mkt, table)
    requires rules.useTrend ==> SharedLookback(rules)
    ensures var (b, t) := TabledPairTick(rules, mkt, pair, book, table, tickTime, close);
            b == PairTick(rules, mkt, pair, book, tickTime, close) && TableSound(rules, mkt, t)
  {
    hide TableSound, DecideOn, SharedLookback, Lookup, BiasIn, Enter, ResultOf;
    var view := ViewOf(rules, mkt, pair, close);
    if EnoughBars(rules, pair, view) && rules.useTrend {
      LookupIsSound(rules, mkt, table, pair, HtfCount(rules, mkt, pair, close));
    }
  }

  lemma {:induction false} PairsAreTransparent(rules: Rules, mkt: Market, book: Book, table: Table, tickTime: int, close: int, n: nat)
    requires ValidMarket(rules, mkt) && n <= |rules.pairs| && TableSound(rules, mkt, table)
    requires rules.useTrend ==> SharedLookback(rules)
    ensures var (b, t) := TabledPairsTick(rules, mkt, book, table, tickTime, close, n);
            b == PairsTick(rules, mkt, book, tickTime, close, n) && TableSound(rules, mkt, t)
  {
    hide TableSound, SharedLookback, TabledPairTick, PairTick;
    if n > 0 {
      PairsAreTransparent(rules, mkt, book, table, tickTime, close, n - 1);
      var (b, t) := TabledPairsTick(rules, mkt, book, table, tickTime, close, n - 1);
      PairIsTransparent(rules, mkt, rules.pairs[n - 1], b, t, tickTime, close);
    }
  }

  lemma TickIsTransparent(rules: Rules, mkt: Market, book: Book, table: Table, i: nat)
    requires ValidMarket(rules, mkt) && Master(rules) in mkt.ltf && i < |mkt.ltf[Master(rules)]|
    requires TableSound(rules, mkt, table) && (rules.useTrend ==> SharedLookback(rules))
    ensures var (b, t) := TabledTick(rules, mkt, book, table, i);
            b == Tick(rules, mkt, book, i) && TableSound(rules, mkt, t)
  {
    hide TableSound, SharedLookback, TabledPairsTick, PairsTick, ExpireLocks, Master;
    var tickTime := mkt.ltf[Master(rules)][i].timestamp;
    PairsAreTransparent(rules, mkt, ExpireLocks(book, tickTime), table, tickTime,
                        tickTime + rules.intervalMs(Master(rules)), |rules.pairs|);
  }

  lemma NothingTabled(rules: Rules, mkt: Market)
    requires ValidMarket(rules, mkt)
    ensures TableSound(rules, mkt, map[])
  {}

  /** With one lookback per higher timeframe, or the trend filter off, the table changes nothing. */
  lemma {:induction false} TableIsTransparent(rules: Rules, mkt: Market, start: nat, upto: nat)
    requires ValidMarket(rules, mkt) && Master(rules) in mkt.ltf && upto <= |mkt.ltf[Master(rules)]|
    requires rules.useTrend ==> SharedLookback(rules)
    ensures var (book, table) := TabledRunTo(rules, mkt, start, upto);
            book == RunTo(rules, mkt, start, upto) && TableSound(rules, mkt, table)
    decreases upto
  {
    hide TableSound, SharedLookback, TabledTick, Tick, ValidMarket, Master;
    NothingTabled(rules, mkt);
    if start < upto {
      TableIsTransparent(rules, mkt, start, upto - 1);
      var (book, table) := TabledRunTo(rules, mkt, start, upto - 1);
      TickIsTransparent(rules, mkt, book, table, upto - 1);
    }
  }

  // ----- Two lookbacks on one higher timeframe -----

  const FIRST := Pair("H", "f")
  const SECOND := Pair("H", "g")
  const MINUTE := 60000
  const ZONE := Zone(1, 0, LONG, 2.0, 1.0, 12.0)

  /** The bias leans on the longer window only, and only the second pair trades. */
  function TwoLookbacks(m: nat, n: nat): Rules {
    Rules([FIRST, SECOND], (pair: Pair) => if pair == FIRST then m else n, _ => MINUTE, _ => 0, _ => C.ProfOf(MINUTE),
          ExpiryMs(C.ProfOf(MINUTE)),
          true, false, true, 1, 0.0,
          (w: seq<Candle>) => if |w| == Longer(m, n) then Leaning(LONG) else Neutral,
          (_, _) => [ZONE],
          (_, _, _) => true,
          (cs: seq<Candle>, _) => if cs == [] then None else Some(cs[|cs| - 1]),
          (pair: Pair, _, c) => if pair == SECOND then C.PlanOn(c, MINUTE) else None)
  }

  function Longer(m: nat, n: nat): nat {
    if m >= n then m else n
  }

  function Bars(n: nat): seq<Candle> {
    seq(n, k => C.Flat((k + 1) * MINUTE))
  }

  function Length(m: nat, n: nat): nat {
    Longer(100, Longer(m, n))
  }

  /** Just enough bars for one tick. */
  function Minutes(m: nat, n: nat): Market {
    var bars := Bars(Length(m, n) + 1);
    Market(map["H" := Bars(Longer(m, n))], map["f" := bars, "g" := bars])
  }

  lemma Playable(m: nat, n: nat)
    requires m >= 3 && n >= 3
    ensures var rules, mkt := TwoLookbacks(m, n), Minutes(m, n);
            && ValidMarket(rules, mkt) && Master(rules) == "f" && WarmUp(rules) == Length(m, n)
            && |mkt.ltf["f"]| == Length(m, n) + 1
            && (forall p <- rules.pairs :: AllWellFormed(mkt.ltf[p.ltf]))
  {
    BarsIncrease(Longer(m, n));
    BarsIncrease(Length(m, n) + 1);
    LongestWarmUp(m, n);
    hide Bars, AllWellFormed, IncreasingTimes, WarmUp;
    assert |Bars(Length(m, n) + 1)| == Length(m, n) + 1;
  }

  lemma BarsIncrease(n: nat)
    ensures IncreasingTimes(Bars(n)) && AllWellFormed(Bars(n)) && |Bars(n)| == n
  {}

  lemma LongestWarmUp(m: nat, n: nat)
    requires m >= 3 && n >= 3
    ensures var rules := TwoLookbacks(m, n);
            |rules.pairs| == 2 && Master(rules) == "f" && rules.intervalMs("f") == MINUTE && WarmUp(rules) == Length(m, n)
  {
    var rules := TwoLookbacks(m, n);
    assert MasterOf(rules, 1) == "f" && MasterOf(rules, 2) == "f";
    assert MaxLookback(rules, 0) == 0 && MaxLookback(rules, 1) == m && MaxLookback(rules, 2) == Longer(m, n);
    assert MaxHtfMinutes(rules, 0) == 0 && MaxHtfMinutes(rules, 1) == MaxHtfMinutes(rules, 2) == 1;
  }

  function TickTimeOf(m: nat, n: nat): int {
    (Length(m, n) + 1) * MINUTE
  }

  /** What both pairs see at the only tick: every bar. */
  lemma EverythingVisible(m: nat, n: nat, pair: Pair)
    requires pair == FIRST || pair == SECOND
    ensures var rules, mkt, close := TwoLookbacks(m, n), Minutes(m, n), TickTimeOf(m, n) + MINUTE;
            && pair.htf in mkt.htf && pair.ltf in mkt.ltf && rules.intervalMs(pair.ltf) > 0
            && ViewOf(rules, mkt, pair, close) == View(Bars(Longer(m, n)), Bars(Length(m, n) + 1), TickTimeOf(m, n))
  {
    var k := Length(m, n) + 1;
    var close := TickTimeOf(m, n) + MINUTE;
    assert close == (k + 1) * MINUTE && LastClosedOpen(close, MINUTE) == k * MINUTE;
    AllBars(k, k * MINUTE);
    AllBars(Longer(m, n), k * MINUTE);
  }

  lemma AllBars(n: nat, t: int)
    requires n * MINUTE <= t
    ensures BisectRight(Bars(n), t) == n && Bars(n)[..n] == Bars(n)
  {
    assert forall j :: 0 <= j < n ==> Bars(n)[j].timestamp <= t;
  }

  /** What the first pair does with any bias: nothing. */
  lemma FirstNeverTrades(m: nat, n: nat, view: View, bias: Bias, tickTime: int)
    ensures DecideOn(TwoLookbacks(m, n), FIRST, view, EMPTY_BOOK, bias, tickTime) == None
  {
    var rules := TwoLookbacks(m, n);
    assert [ZONE][1..] == [];
    assert TryZone(rules, FIRST, view, EMPTY_BOOK, bias, ZONE, tickTime) == None;
    assert ScanZones(rules, FIRST, view, EMPTY_BOOK, bias, [], tickTime) == None;
    assert ScanZones(rules, FIRST, view, EMPTY_BOOK, bias, [ZONE], tickTime) == None;
  }

  /** Everything the second pair's zone scan asks the rules. */
  lemma SecondFacts(m: nat, n: nat)
    requires m >= 3 && n >= 3
    ensures var rules, bars := TwoLookbacks(m, n), Bars(Length(m, n) + 1);
            var last := bars[Length(m, n)];
            && rules.useTrend && rules.maxSignalCount == 1 && rules.staleMs(SECOND) == 0
            && ZonesIn(rules, SECOND, Bars(Longer(m, n))) == [ZONE]
            && bars != [] && last.timestamp == TickTimeOf(m, n)
            && EntryIn(rules, ZONE, bars) == Some(last)
            && rules.build(SECOND, ZONE, last).Some?
  {
    var rules, bars := TwoLookbacks(m, n), Bars(Length(m, n) + 1);
    assert BisectLeft(bars, 1) == 0 && bars[0..] == bars;
  }

  /** What the second pair does: it trades exactly on a leaning bias. */
  lemma SecondTradesOnBias(m: nat, n: nat, bias: Bias)
    requires m >= 3 && n >= 3
    ensures var view := View(Bars(Longer(m, n)), Bars(Length(m, n) + 1), TickTimeOf(m, n));
            var e := DecideOn(TwoLookbacks(m, n), SECOND, view, EMPTY_BOOK, bias, TickTimeOf(m, n));
            e.Some? <==> bias == Leaning(LONG)
  {
    hide TwoLookbacks, Bars, Longer, Length, TickTimeOf, EntryIn, ZonesIn;
    SecondFacts(m, n);
    var rules, now := TwoLookbacks(m, n), TickTimeOf(m, n);
    var view := View(Bars(Longer(m, n)), Bars(Length(m, n) + 1), now);
    assert [ZONE][1..] == [];
    assert ScanZones(rules, SECOND, view, EMPTY_BOOK, bias, [], now) == None;
    assert TryZone(rules, SECOND, view, EMPTY_BOOK, bias, ZONE, now).Some? <==> bias == Leaning(LONG);
  }

  /** Each pair's own bias leans exactly if its window is the longer one. */
  lemma OwnBias(m: nat, n: nat, pair: Pair)
    requires m >= 3 && n >= 3 && (pair == FIRST || pair == SECOND)
    ensures var rules, lookback := TwoLookbacks(m, n), if pair == FIRST then m else n;
            var view := View(Bars(Longer(m, n)), Bars(Length(m, n) + 1), TickTimeOf(m, n));
            && rules.detect(Window(view.htf, rules.lookback(pair))) == BiasIn(rules, pair, view.htf)
               == (if lookback == Longer(m, n) then Leaning(LONG) else Neutral)
            && EnoughBars(rules, pair, view) && rules.useTrend
  {
  }

  lemma ExpireNothing(t: int)
    ensures ExpireLocks(EMPTY_BOOK, t) == EMPTY_BOOK
  {}

  lemma SettledCount(rules: Rules, mkt: Market, pair: Pair, e: Option<Entry>, close: int)
    requires pair.ltf in mkt.ltf && rules.intervalMs(pair.ltf) > 0
    ensures |Settled(rules, mkt, pair, EMPTY_BOOK, e, close).trades| == if e.Some? then 1 else 0
    ensures e == None ==> Settled(rules, mkt, pair, EMPTY_BOOK, e, close) == EMPTY_BOOK
  {}

  /** The tick without the table: the second pair trades if its own window is the longer one. */
  lemma PlainTick(m: nat, n: nat)
    requires m >= 3 && n >= 3
    ensures var rules, mkt, close := TwoLookbacks(m, n), Minutes(m, n), TickTimeOf(m, n) + MINUTE;
            && ValidMarket(rules, mkt) && |rules.pairs| == 2
            && |PairsTick(rules, mkt, EMPTY_BOOK, TickTimeOf(m, n), close, 2).trades|
               == if n == Longer(m, n) then 1 else 0
  {
    hide Settled, DecideOn, ViewOf, EnoughBars, Bars, TwoLookbacks, Minutes, ValidMarket, BiasIn, TickTimeOf, Longer, Length;
    var rules, mkt, now, close := TwoLookbacks(m, n), Minutes(m, n), TickTimeOf(m, n), TickTimeOf(m, n) + MINUTE;
    TwoPairs(m, n);
    EverythingVisible(m, n, FIRST);
    EverythingVisible(m, n, SECOND);
    var view := ViewOf(rules, mkt, FIRST, close);
    OwnBias(m, n, FIRST);
    OwnBias(m, n, SECOND);
    FirstNeverTrades(m, n, view, BiasIn(rules, FIRST, view.htf), now);
    SecondTradesOnBias(m, n, BiasIn(rules, SECOND, view.htf));
    SettledCount(rules, mkt, FIRST, None, close);
    SettledCount(rules, mkt, SECOND, Decide(rules, SECOND, view, EMPTY_BOOK, now), close);
    assert PairsTick(rules, mkt, EMPTY_BOOK, now, close, 0) == EMPTY_BOOK;
    assert PairsTick(rules, mkt, EMPTY_BOOK, now, close, 1) == EMPTY_BOOK;
  }

  lemma TwoPairs(m: nat, n: nat)
    requires m >= 3 && n >= 3
    ensures var rules := TwoLookbacks(m, n);
            rules.pairs == [FIRST, SECOND] && FIRST in rules.pairs && SECOND in rules.pairs
            && ValidMarket(rules, Minutes(m, n))
  {
    Playable(m, n);
    var rules := TwoLookbacks(m, n);
    assert rules.pairs[0] in rules.pairs && rules.pairs[1] in rules.pairs;
  }

  /** The tick with the table: the second pair trades if the first pair's window is the longer one. */
  lemma TabledTickTrades(m: nat, n: nat)
    requires m >= 3 && n >= 3
    ensures var rules, mkt, close := TwoLookbacks(m, n), Minutes(m, n), TickTimeOf(m, n) + MINUTE;
            && ValidMarket(rules, mkt) && |rules.pairs| == 2
            && |TabledPairsTick(rules, mkt, EMPTY_BOOK, map[], TickTimeOf(m, n), close, 2).0.trades|
               == if m == Longer(m, n) then 1 else 0
  {
    hide Settled, DecideOn, ViewOf, EnoughBars, Bars, TwoLookbacks, Minutes, ValidMarket, BiasIn, TickTimeOf, Longer, Length;
    var rules, mkt, now, close := TwoLookbacks(m, n), Minutes(m, n), TickTimeOf(m, n), TickTimeOf(m, n) + MINUTE;
    TwoPairs(m, n);
    EverythingVisible(m, n, FIRST);
    EverythingVisible(m, n, SECOND);
    var view := ViewOf(rules, mkt, FIRST, close);
    OwnBias(m, n, FIRST);
    OwnBias(m, n, SECOND);
    BarsVisible(m, n);
    var (bias, t) := Lookup(rules, map[], FIRST, view.htf);
    FirstNeverTrades(m, n, view, bias, now);
    SecondTradesOnBias(m, n, bias);
    SettledCount(rules, mkt, FIRST, None, close);
    SettledCount(rules, mkt, SECOND, DecideOn(rules, SECOND, view, EMPTY_BOOK, bias, now), close);
    assert Lookup(rules, t, SECOND, view.htf) == (bias, t);
    assert TabledPairsTick(rules, mkt, EMPTY_BOOK, map[], now, close, 0) == (EMPTY_BOOK, map[]);
    assert TabledPairsTick(rules, mkt, EMPTY_BOOK, map[], now, close, 1) == (EMPTY_BOOK, t);
  }

  lemma BarsVisible(m: nat, n: nat)
    requires m >= 3 && n >= 3
    ensures Bars(Longer(m, n)) != []
  {}

  lemma OneTick(m: nat, n: nat)
    requires m >= 3 && n >= 3
    ensures var rules, mkt, close := TwoLookbacks(m, n), Minutes(m, n), TickTimeOf(m, n) + MINUTE;
            && ValidMarket(rules, mkt) && Master(rules) == "f" && "f" in mkt.ltf && |rules.pairs| == 2
            && |mkt.ltf["f"]| == WarmUp(rules) + 1
            && RunTo(rules, mkt, WarmUp(rules), |mkt.ltf["f"]|)
               == PairsTick(rules, mkt, EMPTY_BOOK, TickTimeOf(m, n), close, 2)
            && TabledRunTo(rules, mkt, WarmUp(rules), |mkt.ltf["f"]|)
               == TabledPairsTick(rules, mkt, EMPTY_BOOK, map[], TickTimeOf(m, n), close, 2)
  {
    hide PairsTick, TabledPairsTick, WarmUp, Master, ValidMarket, ExpireLocks;
    Playable(m, n);
    ExpireNothing(TickTimeOf(m, n));
    var rules, mkt := TwoLookbacks(m, n), Minutes(m, n);
    assert RunTo(rules, mkt, WarmUp(rules), WarmUp(rules)) == EMPTY_BOOK;
    assert TabledRunTo(rules, mkt, WarmUp(rules), WarmUp(rules)) == (EMPTY_BOOK, map[]);
  }

  /**
   For every two different lookbacks on one higher timeframe, with the trend filter on, there are
   detectors and bars on which the run with the table admits other setups than the run without it.
   */
  lemma DifferentLookbacksDisagree(m: nat, n: nat) returns (rules: Rules, mkt: Market)
    requires m >= 3 && n >= 3 && m != n
    ensures PlansStartAtRejection(rules) && rules.useTrend && rules.pairs == [FIRST, SECOND] && FIRST.htf == SECOND.htf
    ensures rules.lookback(FIRST) == m && rules.lookback(SECOND) == n
    ensures ValidMarket(rules, mkt) && (forall p <- rules.pairs :: AllWellFormed(mkt.ltf[p.ltf]))
    ensures Master(rules) in mkt.ltf && rules.intervalMs(Master(rules)) >= 60000
    ensures var bars := |mkt.ltf[Master(rules)]|;
            && WarmUp(rules) < bars
            && Admitted(TabledRunTo(rules, mkt, WarmUp(rules), bars).0) != Admitted(RunTo(rules, mkt, WarmUp(rules), bars))
  {
    hide PairsTick, TabledPairsTick, WarmUp, Master, ValidMarket, Minutes, RunTo, TabledRunTo, Bars;
    rules, mkt := TwoLookbacks(m, n), Minutes(m, n);
    Playable(m, n);
    PlainTick(m, n);
    TabledTickTrades(m, n);
    OneTick(m, n);
    var bars := |mkt.ltf["f"]|;
    DifferentTrades(TabledRunTo(rules, mkt, WarmUp(rules), bars).0, RunTo(rules, mkt, WarmUp(rules), bars));
  }
}
