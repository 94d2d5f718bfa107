/**
 The decisions of `MultiPairBacktester.run` in src/app/backtesting/backtest.py,
 written without its caches: what one tick sees, which setup it admits, and what
 admission does to the zone counts, the seen rejections and the direction locks.
 The detectors are parameters; nothing is assumed about them here.
 */
module Backtest {
  import opened Domain
  import opened Lifecycle
  import opened Giveback

  datatype Pair = Pair(htf: string, ltf: string)

  /** A higher-timeframe zone. `high`, `low` and the direction are all that entry detection reads. */
  datatype Zone = Zone(timestamp: int, brokenAt: int, direction: Direction, high: real, low: real, tpLevel: real)

  datatype Box = Box(direction: Direction, high: real, low: real)

  datatype Bias = Leaning(direction: Direction) | Neutral

  /** A plan `build_signal` can return: positive risk, created at a candle time. */
  type TradePlan = p: Plan | p.riskPips > 0.0 && p.createdAt >= 0
    witness Plan(LONG, 1.0, 0.0, 2.0, 3.0, 2.0, 1.0, 0, 0)

  datatype Market = Market(htf: map<string, seq<Candle>>, ltf: map<string, seq<Candle>>)

  /** Settings and detectors of one run. Intervals are in milliseconds. */
  datatype Rules = Rules(
    pairs: seq<Pair>,
    lookback: Pair -> nat,
    intervalMs: string -> int,
    staleMs: Pair -> int,
    profileOf: Pair -> Profile,
    lockExpiryMs: int,
    useTrend: bool, useDisplacement: bool, perPairLocks: bool,
    maxSignalCount: int,
    givebackPct: real,
    detect: seq<Candle> -> Bias,
    findRanges: (seq<Candle>, string) -> seq<Zone>,
    displaced: (seq<Candle>, int, Pair) -> bool,
    findEntry: (seq<Candle>, Box) -> Option<Candle>,
    build: (Pair, Zone, Candle) -> Option<TradePlan>)

  /** Plans are dated as `build_signal` dates them: created when the rejection opens, triggered when it closes. */
  ghost predicate PlansStartAtRejection(rules: Rules) {
    forall pair, z, c :: rules.build(pair, z, c).Some? ==>
      var plan := rules.build(pair, z, c).value;
      plan.createdAt == c.timestamp && plan.triggeredAt == c.timestamp + rules.intervalMs(pair.ltf)
  }

  // ----- Keys -----

  datatype ZoneKey = ZoneKey(pair: Pair, timestamp: int, direction: Direction)

  datatype RejectionKey = RejectionKey(pair: Pair, timestamp: int)

  datatype LockKey = PairLock(pair: Pair, direction: Direction) | SymbolLock(direction: Direction)

  function KeyOf(pair: Pair, z: Zone): ZoneKey {
    ZoneKey(pair, z.timestamp, z.direction)
  }

  function BoxOf(z: Zone): Box {
    Box(z.direction, z.high, z.low)
  }

  /** `htf_range.broken_at or htf_range.timestamp` */
  function StartOf(z: Zone): int {
    if z.brokenAt != 0 then z.brokenAt else z.timestamp
  }

  function LockOf(rules: Rules, pair: Pair, d: Direction): LockKey {
    if rules.perPairLocks then PairLock(pair, d) else SymbolLock(d)
  }

  // ----- Bisection on candle times -----

  function BisectRight(cs: seq<Candle>, t: int): (n: nat)
    ensures n <= |cs|
    ensures forall k :: 0 <= k < n ==> cs[k].timestamp <= t
    ensures n < |cs| ==> cs[n].timestamp > t
  {
    if cs == [] || cs[0].timestamp > t then 0 else 1 + BisectRight(cs[1..], t)
  }

  function BisectLeft(cs: seq<Candle>, t: int): (n: nat)
    ensures n <= |cs|
    ensures forall k :: 0 <= k < n ==> cs[k].timestamp < t
    ensures n < |cs| ==> cs[n].timestamp >= t
  {
    if cs == [] || cs[0].timestamp >= t then 0 else 1 + BisectLeft(cs[1..], t)
  }

  // ----- What one pair sees at one tick -----

  datatype View = View(htf: seq<Candle>, ltf: seq<Candle>, now: int)

  ghost predicate ValidMarket(rules: Rules, mkt: Market) {
    && (forall p <- rules.pairs :: p.htf in mkt.htf && p.ltf in mkt.ltf)
    && (forall iv <- mkt.htf :: IncreasingTimes(mkt.htf[iv]))
    && (forall iv <- mkt.ltf :: IncreasingTimes(mkt.ltf[iv]))
    && (forall p <- rules.pairs :: rules.intervalMs(p.htf) > 0 && rules.intervalMs(p.ltf) > 0)
    && (forall p <- rules.pairs :: rules.lookback(p) >= 3)
    && |rules.pairs| > 0
  }

  function HtfCount(rules: Rules, mkt: Market, pair: Pair, close: int): nat
    requires pair.htf in mkt.htf
  {
    BisectRight(mkt.htf[pair.htf], close - rules.intervalMs(pair.htf))
  }

  function LtfCount(rules: Rules, mkt: Market, pair: Pair, close: int): nat
    requires pair.ltf in mkt.ltf && rules.intervalMs(pair.ltf) > 0
  {
    BisectRight(mkt.ltf[pair.ltf], LastClosedOpen(close, rules.intervalMs(pair.ltf)))
  }

  function ViewOf(rules: Rules, mkt: Market, pair: Pair, close: int): View
    requires pair.htf in mkt.htf && pair.ltf in mkt.ltf && rules.intervalMs(pair.ltf) > 0
  {
    View(mkt.htf[pair.htf][..HtfCount(rules, mkt, pair, close)],
         mkt.ltf[pair.ltf][..LtfCount(rules, mkt, pair, close)],
         LastClosedOpen(close, rules.intervalMs(pair.ltf)))
  }

  function Window(visible: seq<Candle>, lookback: nat): seq<Candle> {
    if |visible| <= lookback then visible else visible[|visible| - lookback..]
  }

  function KeepDisplaced(rules: Rules, pair: Pair, visible: seq<Candle>, zones: seq<Zone>): (kept: seq<Zone>)
    ensures forall z <- kept :: z in zones
  {
    if zones == [] then []
    else
      (if rules.displaced(visible, zones[0].brokenAt, pair) then [zones[0]] else [])
      + KeepDisplaced(rules, pair, visible, zones[1..])
  }

  function ZonesIn(rules: Rules, pair: Pair, visible: seq<Candle>): seq<Zone> {
    var zones := rules.findRanges(Window(visible, rules.lookback(pair)), pair.htf);
    if rules.useDisplacement then KeepDisplaced(rules, pair, visible, zones) else zones
  }

  function BiasIn(rules: Rules, pair: Pair, visible: seq<Candle>): Bias {
    rules.detect(Window(visible, rules.lookback(pair)))
  }

  function EntryIn(rules: Rules, z: Zone, ltf: seq<Candle>): Option<Candle> {
    rules.findEntry(ltf[BisectLeft(ltf, StartOf(z))..], BoxOf(z))
  }

  // ----- The books of a run -----

  /** An admitted setup: everything about a trade that is known when it is entered. */
  datatype Entry = Entry(pair: Pair, zone: Zone, rejection: Candle, plan: TradePlan, attempt: int, tickTime: int)

  datatype Trade = Trade(entry: Entry, result: BacktestResult, lock: LockKey, lockUntil: int)

  datatype Book = Book(
    dead: set<ZoneKey>, counts: map<ZoneKey, int>, seen: set<RejectionKey>,
    open: map<LockKey, int>, trades: seq<Trade>)

  const EMPTY_BOOK := Book({}, map[], {}, map[], [])

  function CountOf(book: Book, key: ZoneKey): int {
    if key in book.counts then book.counts[key] else 0
  }

  /** The gates one zone must pass, in the order the source tests them. */
  function TryZone(rules: Rules, pair: Pair, view: View, book: Book, bias: Bias, z: Zone, tickTime: int): Option<Entry> {
    var key := KeyOf(pair, z);
    if key in book.dead || CountOf(book, key) >= rules.maxSignalCount then None
    else if rules.useTrend && bias != Leaning(z.direction) then None
    else
      var rejection := EntryIn(rules, z, view.ltf);
      if rejection.None? then None
      else if RejectionKey(pair, rejection.value.timestamp) in book.seen then None
      else if LockOf(rules, pair, z.direction) in book.open then None
      else if view.now - rejection.value.timestamp > rules.staleMs(pair) then None
      else
        var plan := rules.build(pair, z, rejection.value);
        if plan.None? then None
        else Some(Entry(pair, z, rejection.value, plan.value, CountOf(book, key) + 1, tickTime))
  }

  /** The first zone that passes: one signal per pair and tick. */
  function ScanZones(rules: Rules, pair: Pair, view: View, book: Book, bias: Bias, zones: seq<Zone>, tickTime: int): Option<Entry> {
    if zones == [] then None
    else
      var first := TryZone(rules, pair, view, book, bias, zones[0], tickTime);
      if first.Some? then first else ScanZones(rules, pair, view, book, bias, zones[1..], tickTime)
  }

  /** What remains to decide once the market structure's bias is known. */
  function DecideOn(rules: Rules, pair: Pair, view: View, book: Book, bias: Bias, tickTime: int): Option<Entry> {
    if rules.useTrend && bias.Neutral? then None
    else if view.ltf == [] then None
    else ScanZones(rules, pair, view, book, bias, ZonesIn(rules, pair, view.htf), tickTime)
  }

  predicate EnoughBars(rules: Rules, pair: Pair, view: View) {
    |Window(view.htf, rules.lookback(pair))| >= rules.lookback(pair) / 3
  }

  function Decide(rules: Rules, pair: Pair, view: View, book: Book, tickTime: int): Option<Entry> {
    if !EnoughBars(rules, pair, view) then None
    else DecideOn(rules, pair, view, book, if rules.useTrend then BiasIn(rules, pair, view.htf) else Neutral, tickTime)
  }

  /** `result.close_ts or (signal.created_at + expiry_ms)` */
  function LockUntil(rules: Rules, plan: TradePlan, result: BacktestResult): int {
    if result.closeTs.Some? && result.closeTs.value != 0 then result.closeTs.value
    else plan.createdAt + rules.lockExpiryMs
  }

  /** The bookkeeping of an admitted setup whose trade was simulated to `result`. */
  function Enter(rules: Rules, book: Book, e: Entry, result: BacktestResult): Book {
    var key, lock := KeyOf(e.pair, e.zone), LockOf(rules, e.pair, e.zone.direction);
    var until := LockUntil(rules, e.plan, result);
    Book(if e.attempt >= rules.maxSignalCount then book.dead + {key} else book.dead,
         book.counts[key := e.attempt],
         book.seen + {RejectionKey(e.pair, e.rejection.timestamp)},
         book.open[lock := until],
         book.trades + [Trade(e, result, lock, until)])
  }

  /** The simulation looks at the bars after the last visible one. */
  function ResultOf(rules: Rules, mkt: Market, pair: Pair, plan: TradePlan, seen: nat): BacktestResult
    requires pair.ltf in mkt.ltf && seen <= |mkt.ltf[pair.ltf]|
  {
    Simulated(plan, rules.profileOf(pair), rules.givebackPct, mkt.ltf[pair.ltf][seen..]).result
  }

  /** The books after one pair's decision. */
  function Settled(rules: Rules, mkt: Market, pair: Pair, book: Book, e: Option<Entry>, close: int): Book
    requires pair.ltf in mkt.ltf && rules.intervalMs(pair.ltf) > 0
  {
    if e.None? then book
    else Enter(rules, book, e.value, ResultOf(rules, mkt, pair, e.value.plan, LtfCount(rules, mkt, pair, close)))
  }

  function PairTick(rules: Rules, mkt: Market, pair: Pair, book: Book, tickTime: int, close: int): Book
    requires pair.htf in mkt.htf && pair.ltf in mkt.ltf && rules.intervalMs(pair.ltf) > 0
  {
    Settled(rules, mkt, pair, book, Decide(rules, pair, ViewOf(rules, mkt, pair, close), book, tickTime), close)
  }

  /** The first `n` pairs of one tick. */
  function PairsTick(rules: Rules, mkt: Market, book: Book, tickTime: int, close: int, n: nat): Book
    requires ValidMarket(rules, mkt) && n <= |rules.pairs|
  {
    if n == 0 then book
    else PairTick(rules, mkt, rules.pairs[n - 1], PairsTick(rules, mkt, book, tickTime, close, n - 1), tickTime, close)
  }

  function ExpireLocks(book: Book, tickTime: int): Book {
    book.(open := map k | k in book.open && book.open[k] > tickTime :: book.open[k])
  }

  // ----- The whole run -----

  function Larger(a: int, b: int): int {
    if a >= b then a else b
  }

  function MaxLookback(rules: Rules, n: nat): int
    requires n <= |rules.pairs|
  {
    if n == 0 then 0 else Larger(MaxLookback(rules, n - 1), rules.lookback(rules.pairs[n - 1]))
  }

  function MaxHtfMinutes(rules: Rules, n: nat): int
    requires n <= |rules.pairs|
  {
    if n == 0 then 0 else Larger(MaxHtfMinutes(rules, n - 1), rules.intervalMs(rules.pairs[n - 1].htf) / 60000)
  }

  /** The finest lower timeframe; the first one listed wins ties. */
  function MasterOf(rules: Rules, n: nat): string
    requires 0 < n <= |rules.pairs|
  {
    var last := rules.pairs[n - 1].ltf;
    if n == 1 then last
    else
      var best := MasterOf(rules, n - 1);
      if rules.intervalMs(last) < rules.intervalMs(best) then last else best
  }

  function Master(rules: Rules): string
    requires |rules.pairs| > 0
  {
    MasterOf(rules, |rules.pairs|)
  }

  /** Bars skipped before the first decision: at least 100, and every lookback in master bars. */
  function WarmUp(rules: Rules): nat
    requires |rules.pairs| > 0 && rules.intervalMs(Master(rules)) >= 60000
  {
    var n := |rules.pairs|;
    Larger(100, MaxLookback(rules, n) * (MaxHtfMinutes(rules, n) / (rules.intervalMs(Master(rules)) / 60000)))
  }

  lemma {:induction false} MasterIsListed(rules: Rules, n: nat)
    requires 0 < n <= |rules.pairs|
    ensures exists p <- rules.pairs :: p.ltf == MasterOf(rules, n)
  {
    if n > 1 {
      MasterIsListed(rules, n - 1);
    }
    assert rules.pairs[n - 1] in rules.pairs;
  }

  function Tick(rules: Rules, mkt: Market, book: Book, i: nat): Book
    requires ValidMarket(rules, mkt) && Master(rules) in mkt.ltf && i < |mkt.ltf[Master(rules)]|
  {
    var tickTime := mkt.ltf[Master(rules)][i].timestamp;
    PairsTick(rules, mkt, ExpireLocks(book, tickTime), tickTime,
              tickTime + rules.intervalMs(Master(rules)), |rules.pairs|)
  }

  /** The books after the master bars from `start` up to, but not including, `upto`. */
  function RunTo(rules: Rules, mkt: Market, start: nat, upto: nat): Book
    requires ValidMarket(rules, mkt) && Master(rules) in mkt.ltf && upto <= |mkt.ltf[Master(rules)]|
    decreases upto
  {
    if upto <= start then EMPTY_BOOK
    else Tick(rules, mkt, RunTo(rules, mkt, start, upto - 1), upto - 1)
  }
}
