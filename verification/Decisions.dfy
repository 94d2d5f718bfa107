/**
 What a backtest decides, told from the bars on the chart and the trades entered so
 far: which bars each detector is given, and exactly when a zone becomes a trade.
 */
module Decisions {
  import opened Domain
  import opened Lifecycle
  import opened Giveback
  import opened Backtest
  import opened Admission

  // ----- The bars the detectors are given -----

  /** The `k`-th bar from the end. */
  function FromEnd(cs: seq<Candle>, k: int): Candle
    requires 1 <= k <= |cs|
  {
    cs[|cs| - k]
  }

  /** `bars` are the newest of `visible` in their order, `limit` of them or all there are. */
  predicate Newest(bars: seq<Candle>, visible: seq<Candle>, limit: nat) {
    && |bars| == (if |visible| < limit then |visible| else limit)
    && forall k :: 1 <= k <= |bars| ==> FromEnd(bars, k) == FromEnd(visible, k)
  }

  lemma WindowIsNewest(visible: seq<Candle>, limit: nat)
    ensures Newest(Window(visible, limit), visible, limit)
  {}

  lemma NewestIsUnique(a: seq<Candle>, b: seq<Candle>, visible: seq<Candle>, limit: nat)
    requires Newest(a, visible, limit) && Newest(b, visible, limit)
    ensures a == b
  {
    forall i | 0 <= i < |a|
      ensures a[i] == b[i]
    {
      assert FromEnd(a, |a| - i) == FromEnd(b, |b| - i);
    }
  }

  /** `at` lists in order the displaced zones from position `lo` on, and `kept` is what stands there. */
  ghost predicate Picks(rules: Rules, pair: Pair, visible: seq<Candle>, zones: seq<Zone>, lo: nat, kept: seq<Zone>, at: seq<nat>) {
    && |at| == |kept| && (forall j :: 0 <= j < |at| ==> lo <= at[j] < |zones| && kept[j] == zones[at[j]])
    && (forall i, j :: 0 <= i < j < |at| ==> at[i] < at[j])
    && (forall i :: lo <= i < |zones| && rules.displaced(visible, zones[i].brokenAt, pair) ==> i in at)
    && (forall i <- at :: i < |zones| && rules.displaced(visible, zones[i].brokenAt, pair))
  }

  /** `kept` are the zones the displacement filter lets through, in their order. */
  ghost predicate Displaced(rules: Rules, pair: Pair, visible: seq<Candle>, zones: seq<Zone>, kept: seq<Zone>) {
    exists at: seq<nat> :: Picks(rules, pair, visible, zones, 0, kept, at)
  }

  lemma {:induction false} KeepsFrom(rules: Rules, pair: Pair, visible: seq<Candle>, zones: seq<Zone>, lo: nat) returns (at: seq<nat>)
    requires lo <= |zones|
    ensures Picks(rules, pair, visible, zones, lo, KeepDisplaced(rules, pair, visible, zones[lo..]), at)
    decreases |zones| - lo
  {
    hide Picks;
    if lo == |zones| {
      at := [];
      PicksNone(rules, pair, visible, zones);
    } else {
      at := KeepsFrom(rules, pair, visible, zones, lo + 1);
      assert zones[lo..][1..] == zones[lo + 1..];
      var rest := KeepDisplaced(rules, pair, visible, zones[lo + 1..]);
      PicksOneMore(rules, pair, visible, zones, lo, rest, at);
      if rules.displaced(visible, zones[lo].brokenAt, pair) {
        at := [lo] + at;
      } else {
        assert [] + rest == rest;
      }
    }
  }

  lemma PicksNone(rules: Rules, pair: Pair, visible: seq<Candle>, zones: seq<Zone>)
    ensures Picks(rules, pair, visible, zones, |zones|, [], [])
  {}

  lemma PicksOneMore(rules: Rules, pair: Pair, visible: seq<Candle>, zones: seq<Zone>, lo: nat, rest: seq<Zone>, at: seq<nat>)
    requires lo < |zones| && Picks(rules, pair, visible, zones, lo + 1, rest, at)
    ensures if rules.displaced(visible, zones[lo].brokenAt, pair)
            then Picks(rules, pair, visible, zones, lo, [zones[lo]] + rest, [lo] + at)
            else Picks(rules, pair, visible, zones, lo, rest, at)
  {}

  lemma KeepsDisplaced(rules: Rules, pair: Pair, visible: seq<Candle>, zones: seq<Zone>)
    ensures Displaced(rules, pair, visible, zones, KeepDisplaced(rules, pair, visible, zones))
  {
    var at := KeepsFrom(rules, pair, visible, zones, 0);
    assert zones[0..] == zones;
  }

  /** The zones one pair is offered: those found on the newest bars, filtered on all that is visible. */
  ghost predicate Offered(rules: Rules, pair: Pair, visible: seq<Candle>, zones: seq<Zone>) {
    exists bars: seq<Candle> ::
      && Newest(bars, visible, rules.lookback(pair))
      && var found := rules.findRanges(bars, pair.htf);
         if rules.useDisplacement then Displaced(rules, pair, visible, found, zones) else zones == found
  }

  lemma ZonesAreOffered(rules: Rules, pair: Pair, visible: seq<Candle>)
    ensures Offered(rules, pair, visible, ZonesIn(rules, pair, visible))
  {
    hide Displaced;
    var bars := Window(visible, rules.lookback(pair));
    WindowIsNewest(visible, rules.lookback(pair));
    KeepsDisplaced(rules, pair, visible, rules.findRanges(bars, pair.htf));
  }

  /** The market structure is read on the newest bars. */
  ghost predicate Leans(rules: Rules, pair: Pair, visible: seq<Candle>, bias: Bias) {
    exists bars: seq<Candle> :: Newest(bars, visible, rules.lookback(pair)) && bias == rules.detect(bars)
  }

  lemma BiasLeans(rules: Rules, pair: Pair, visible: seq<Candle>)
    ensures Leans(rules, pair, visible, BiasIn(rules, pair, visible))
  {
    WindowIsNewest(visible, rules.lookback(pair));
  }

  /** Histories with the same last `lookback` bars are judged alike, whatever came before. */
  lemma OnlyNewestBarsMatter(rules: Rules, pair: Pair, a: seq<Candle>, b: seq<Candle>)
    requires |a| >= rules.lookback(pair) && |b| >= rules.lookback(pair)
    requires forall k :: 1 <= k <= rules.lookback(pair) ==> FromEnd(a, k) == FromEnd(b, k)
    ensures BiasIn(rules, pair, a) == BiasIn(rules, pair, b)
    ensures !rules.useDisplacement ==> ZonesIn(rules, pair, a) == ZonesIn(rules, pair, b)
  {
    var l := rules.lookback(pair);
    WindowIsNewest(a, l);
    WindowIsNewest(b, l);
    NewestIsUnique(Window(a, l), Window(b, l), a, l);
  }

  // ----- What is visible at a tick -----

  /** A tick shows every closed bar and no other, and judges freshness by the last closed one. */
  ghost predicate ShowsClosed(rules: Rules, mkt: Market, pair: Pair, close: int, view: View)
    requires pair.htf in mkt.htf && pair.ltf in mkt.ltf
  {
    var htf, ltf, ms := mkt.htf[pair.htf], mkt.ltf[pair.ltf], rules.intervalMs(pair.ltf);
    && view.htf <= htf && view.ltf <= ltf
    && (forall k :: 0 <= k < |htf| ==> (k < |view.htf| <==> htf[k].timestamp + rules.intervalMs(pair.htf) <= close))
    && (forall k :: 0 <= k < |ltf| ==> (k < |view.ltf| <==> OverBy(ltf[k].timestamp, ms, close)))
    && (exists b: int :: view.now + ms == Boundary(b, ms) <= close < Boundary(b, ms) + ms)
  }

  lemma ViewShowsClosed(rules: Rules, mkt: Market, pair: Pair, close: int)
    requires pair.htf in mkt.htf && pair.ltf in mkt.ltf
    requires IncreasingTimes(mkt.htf[pair.htf]) && IncreasingTimes(mkt.ltf[pair.ltf]) && rules.intervalMs(pair.ltf) > 0
    ensures ShowsClosed(rules, mkt, pair, close, ViewOf(rules, mkt, pair, close))
  {
    hide OverBy, LastClosedOpen, Boundary;
    var ltf, ms := mkt.ltf[pair.ltf], rules.intervalMs(pair.ltf);
    BisectSplits(mkt.htf[pair.htf], close - rules.intervalMs(pair.htf));
    BisectSplits(ltf, LastClosedOpen(close, ms));
    LastBoundary(close, ms);
    forall k | 0 <= k < |ltf|
      ensures k < LtfCount(rules, mkt, pair, close) <==> OverBy(ltf[k].timestamp, ms, close)
    {
      OverByIff(ltf[k].timestamp, ms, close);
    }
  }

  lemma BisectSplits(cs: seq<Candle>, t: int)
    requires IncreasingTimes(cs)
    ensures forall k :: 0 <= k < |cs| ==> (k < BisectRight(cs, t) <==> cs[k].timestamp <= t)
    ensures forall k :: 0 <= k < |cs| ==> (k < BisectLeft(cs, t) <==> cs[k].timestamp < t)
  {}

  // ----- When a zone becomes a trade -----

  /** The earlier trades from this zone on this pair. */
  function FromZone(trades: seq<Trade>, pair: Pair, z: Zone): set<nat> {
    set k: nat | k < |trades| && trades[k].entry.pair == pair && trades[k].entry.zone.timestamp == z.timestamp
                 && trades[k].entry.zone.direction == z.direction
  }

  /** The pair has already used a rejection candle of this time. */
  predicate Used(trades: seq<Trade>, pair: Pair, time: int) {
    exists t <- trades :: t.entry.pair == pair && t.entry.rejection.timestamp == time
  }

  /** A trade's simulated life reaches past `now`; it has no end without a close, except its expiry. */
  predicate Lasts(rules: Rules, t: Trade, now: int) {
    match t.result.closeTs
    case None => t.entry.plan.createdAt + rules.lockExpiryMs > now
    case Some(ts) => if ts == 0 then t.entry.plan.createdAt + rules.lockExpiryMs > now else ts > now
  }

  /** An earlier trade in this direction is still running, or was entered at this very tick. */
  predicate Held(rules: Rules, trades: seq<Trade>, pair: Pair, d: Direction, now: int) {
    exists t <- trades ::
      && t.entry.zone.direction == d && (rules.perPairLocks ==> t.entry.pair == pair)
      && (Lasts(rules, t, now) || t.entry.tickTime == now)
  }

  /** Entry detection on the visible bars since the zone began answers `c`. */
  ghost predicate Rejects(rules: Rules, z: Zone, ltf: seq<Candle>, c: Candle) {
    exists since: nat ::
      && since <= |ltf|
      && (forall k :: 0 <= k < |ltf| ==>
            (since <= k <==> (if z.brokenAt != 0 then z.brokenAt else z.timestamp) <= ltf[k].timestamp))
      && rules.findEntry(ltf[since..], Box(z.direction, z.high, z.low)) == Some(c)
  }

  /** The zone yields this entry: every gate, each in terms of the chart and the earlier trades. */
  ghost predicate Yields(rules: Rules, pair: Pair, view: View, trades: seq<Trade>, bias: Bias, z: Zone, now: int, e: Entry) {
    var earlier := |FromZone(trades, pair, z)|;
    && earlier < rules.maxSignalCount
    && (rules.useTrend ==> bias == Leaning(z.direction))
    && Rejects(rules, z, view.ltf, e.rejection)
    && !Used(trades, pair, e.rejection.timestamp)
    && !Held(rules, trades, pair, z.direction, now)
    && view.now - rules.staleMs(pair) <= e.rejection.timestamp
    && rules.build(pair, z, e.rejection) == Some(e.plan)
    && e.pair == pair && e.zone == z && e.attempt == earlier + 1 && e.tickTime == now
  }

  /** The books as a function of the trades: zone counts, rejections and locks. */
  ghost predicate FollowsTrades(rules: Rules, book: Book, now: int) {
    && Kept(rules, book, now)
    && LocksFollow(rules, book, now)
  }

  ghost predicate LocksFollow(rules: Rules, book: Book, now: int) {
    && (forall t <- book.trades :: t.lock == LockOf(rules, t.entry.pair, t.entry.zone.direction))
    && (forall t <- book.trades :: t.lockUntil == LockUntil(rules, t.entry.plan, t.result) && t.entry.tickTime <= now)
    && (forall k :: k in book.open <==> exists t <- book.trades :: t.lock == k && (t.lockUntil > now || t.entry.tickTime == now))
    && (forall k <- book.open :: exists t <- book.trades :: t.lock == k && t.lockUntil == book.open[k])
  }

  lemma LockLasts(rules: Rules, t: Trade, now: int)
    requires t.lockUntil == LockUntil(rules, t.entry.plan, t.result)
    ensures t.lockUntil > now <==> Lasts(rules, t, now)
  {}

  lemma {:induction false} EmittedIsFromZone(trades: seq<Trade>, pair: Pair, z: Zone)
    ensures Emitted(trades, KeyOf(pair, z)) == |FromZone(trades, pair, z)|
  {
    if trades != [] {
      var m := |trades| - 1;
      var init := trades[..m];
      EmittedIsFromZone(init, pair, z);
      var here, before := FromZone(trades, pair, z), FromZone(init, pair, z);
      assert forall k: nat :: k in before <==> k in here && k != m;
      assert before == here - {m};
    }
  }

  lemma HeldIffLocked(rules: Rules, book: Book, pair: Pair, d: Direction, now: int)
    requires FollowsTrades(rules, book, now)
    ensures LockOf(rules, pair, d) in book.open <==> Held(rules, book.trades, pair, d, now)
  {
    hide CountsKept, SeenKept, LockUntil, Lasts;
    forall t | t in book.trades
      ensures t.lockUntil > now <==> Lasts(rules, t, now)
    {
      LockLasts(rules, t, now);
    }
    SameLockIff(rules, book.trades, pair, d);
    var k := LockOf(rules, pair, d);
    if k in book.open {
      var t :| t in book.trades && t.lock == k && (t.lockUntil > now || t.entry.tickTime == now);
    }
    if Held(rules, book.trades, pair, d, now) {
      var t :| t in book.trades && t.entry.zone.direction == d && (rules.perPairLocks ==> t.entry.pair == pair)
               && (Lasts(rules, t, now) || t.entry.tickTime == now);
      assert t.lock == k;
    }
  }

  lemma SameLockIff(rules: Rules, trades: seq<Trade>, pair: Pair, d: Direction)
    ensures forall t <- trades ::
              LockOf(rules, t.entry.pair, t.entry.zone.direction) == LockOf(rules, pair, d)
              <==> t.entry.zone.direction == d && (rules.perPairLocks ==> t.entry.pair == pair)
  {}

  lemma RejectsIff(rules: Rules, z: Zone, ltf: seq<Candle>, c: Candle)
    requires IncreasingTimes(ltf)
    ensures EntryIn(rules, z, ltf) == Some(c) <==> Rejects(rules, z, ltf, c)
  {
    BisectSplits(ltf, StartOf(z));
    var lo := BisectLeft(ltf, StartOf(z));
    if Rejects(rules, z, ltf, c) {
      var since: nat :|
        && since <= |ltf|
        && (forall k :: 0 <= k < |ltf| ==>
              (since <= k <==> (if z.brokenAt != 0 then z.brokenAt else z.timestamp) <= ltf[k].timestamp))
        && rules.findEntry(ltf[since..], Box(z.direction, z.high, z.low)) == Some(c);
      assert since < |ltf| ==> ltf[since].timestamp >= StartOf(z);
      assert lo < |ltf| ==> ltf[lo].timestamp >= StartOf(z);
    }
  }

  lemma UsedIffSeen(book: Book, pair: Pair, time: int)
    requires SeenKept(book)
    ensures RejectionKey(pair, time) in book.seen <==> Used(book.trades, pair, time)
  {
    if Used(book.trades, pair, time) {
      var t :| t in book.trades && t.entry.pair == pair && t.entry.rejection.timestamp == time;
      assert RejectionOf(t) == RejectionKey(pair, time);
    }
    if RejectionKey(pair, time) in book.seen {
      var t :| t in book.trades && RejectionOf(t) == RejectionKey(pair, time);
      assert t.entry.pair == pair;
    }
  }

  lemma DeadIffSpent(rules: Rules, book: Book, key: ZoneKey)
    requires CountsKept(rules, book)
    ensures CountOf(book, key) == Emitted(book.trades, key)
    ensures key in book.dead ==> CountOf(book, key) >= rules.maxSignalCount
  {}

  /** One zone passes exactly when every gate lets it, and the entry is the one described. */
  lemma ZonePassesIff(rules: Rules, pair: Pair, view: View, book: Book, bias: Bias, z: Zone, now: int, e: Entry)
    requires FollowsTrades(rules, book, now) && IncreasingTimes(view.ltf)
    ensures TryZone(rules, pair, view, book, bias, z, now) == Some(e)
            <==> Yields(rules, pair, view, book.trades, bias, z, now, e)
  {
    hide CountsKept, SeenKept, Emitted, Rejects, EntryIn, Used, Held, FromZone, LockOf, KeyOf, IncreasingTimes;
    DeadIffSpent(rules, book, KeyOf(pair, z));
    EmittedIsFromZone(book.trades, pair, z);
    HeldIffLocked(rules, book, pair, z.direction, now);
    RejectsIff(rules, z, view.ltf, e.rejection);
    UsedIffSeen(book, pair, e.rejection.timestamp);
  }

  /** The first zone of the list that yields an entry decides. */
  ghost predicate FirstYields(rules: Rules, pair: Pair, view: View, trades: seq<Trade>, bias: Bias, zones: seq<Zone>, now: int, e: Entry) {
    exists k :: 0 <= k < |zones| && Yields(rules, pair, view, trades, bias, zones[k], now, e)
             && forall j, x :: 0 <= j < k ==> !Yields(rules, pair, view, trades, bias, zones[j], now, x)
  }

  lemma {:induction false} ScanIff(rules: Rules, pair: Pair, view: View, book: Book, bias: Bias, zones: seq<Zone>, now: int, e: Entry)
    requires FollowsTrades(rules, book, now) && IncreasingTimes(view.ltf)
    ensures ScanZones(rules, pair, view, book, bias, zones, now) == Some(e)
            <==> FirstYields(rules, pair, view, book.trades, bias, zones, now, e)
    decreases |zones|
  {
    hide FollowsTrades, IncreasingTimes, Yields, TryZone;
    if zones != [] {
      forall x {
        ZonePassesIff(rules, pair, view, book, bias, zones[0], now, x);
      }
      ScanIff(rules, pair, view, book, bias, zones[1..], now, e);
      var first := TryZone(rules, pair, view, book, bias, zones[0], now);
      if first.Some? {
        FirstOfAll(rules, pair, view, book.trades, bias, zones, now, e, first.value);
      } else {
        LaterOfAll(rules, pair, view, book.trades, bias, zones, now, e);
      }
    }
  }

  lemma FirstOfAll(rules: Rules, pair: Pair, view: View, trades: seq<Trade>, bias: Bias, zones: seq<Zone>, now: int, e: Entry, first: Entry)
    requires zones != [] && forall x :: Yields(rules, pair, view, trades, bias, zones[0], now, x) <==> x == first
    ensures FirstYields(rules, pair, view, trades, bias, zones, now, e) <==> e == first
  {
    hide Yields;
    assert Yields(rules, pair, view, trades, bias, zones[0], now, first);
  }

  lemma LaterOfAll(rules: Rules, pair: Pair, view: View, trades: seq<Trade>, bias: Bias, zones: seq<Zone>, now: int, e: Entry)
    requires zones != [] && forall x :: !Yields(rules, pair, view, trades, bias, zones[0], now, x)
    ensures FirstYields(rules, pair, view, trades, bias, zones, now, e)
       <==> FirstYields(rules, pair, view, trades, bias, zones[1..], now, e)
  {
    hide Yields;
    if FirstYields(rules, pair, view, trades, bias, zones, now, e) {
      var k :| 0 <= k < |zones| && Yields(rules, pair, view, trades, bias, zones[k], now, e)
               && forall j, x :: 0 <= j < k ==> !Yields(rules, pair, view, trades, bias, zones[j], now, x);
      assert zones[1..][k - 1] == zones[k];
      forall j, x | 0 <= j < k - 1
        ensures !Yields(rules, pair, view, trades, bias, zones[1..][j], now, x)
      {
        assert zones[1..][j] == zones[j + 1];
      }
    }
    if FirstYields(rules, pair, view, trades, bias, zones[1..], now, e) {
      var k :| 0 <= k < |zones[1..]| && Yields(rules, pair, view, trades, bias, zones[1..][k], now, e)
               && forall j, x :: 0 <= j < k ==> !Yields(rules, pair, view, trades, bias, zones[1..][j], now, x);
      assert zones[k + 1] == zones[1..][k];
      forall j, x | 0 <= j < k + 1
        ensures !Yields(rules, pair, view, trades, bias, zones[j], now, x)
      {
        if j > 0 {
          assert zones[1..][j - 1] == zones[j];
        }
      }
    }
  }

  /** The setup a pair admits: enough bars to judge, a bias if one is asked for, and the first zone that yields. */
  ghost predicate Admits(rules: Rules, pair: Pair, view: View, trades: seq<Trade>, now: int, e: Entry) {
    && (|view.htf| >= rules.lookback(pair) / 3)
    && view.ltf != []
    && exists bias, zones ::
         && (if rules.useTrend then Leans(rules, pair, view.htf, bias) && bias != Neutral else bias == Neutral)
         && Offered(rules, pair, view.htf, zones)
         && FirstYields(rules, pair, view, trades, bias, zones, now, e)
  }

  predicate Increasing(a: seq<nat>) {
    forall i, j :: 0 <= i < j < |a| ==> a[i] < a[j]
  }

  predicate SameElements(a: seq<nat>, b: seq<nat>) {
    (forall i <- a :: i in b) && (forall i <- b :: i in a)
  }

  lemma {:induction false} IncreasingSame(a: seq<nat>, b: seq<nat>)
    requires Increasing(a) && Increasing(b) && SameElements(a, b)
    ensures a == b
    decreases |a|
  {
    hide Increasing, SameElements;
    SameEnds(a, b);
    if a != [] {
      var c, d := a[..|a| - 1], b[..|b| - 1];
      IncreasingSame(c, d);
      assert a == c + [a[|a| - 1]] && b == d + [b[|b| - 1]];
    }
  }

  lemma SameEnds(a: seq<nat>, b: seq<nat>)
    requires Increasing(a) && Increasing(b) && SameElements(a, b)
    ensures a == [] <==> b == []
    ensures a != [] ==>
              var c, d := a[..|a| - 1], b[..|b| - 1];
              a[|a| - 1] == b[|b| - 1] && Increasing(c) && Increasing(d) && SameElements(c, d)
  {
    assert b != [] ==> b[0] in a;
    assert a != [] ==> a[0] in b;
    assert b != [] ==> b[|b| - 1] in a;
    assert a != [] ==> a[|a| - 1] in b;
    if a != [] {
      InitInclusion(a, b);
      InitInclusion(b, a);
    }
  }

  lemma InitInclusion(a: seq<nat>, b: seq<nat>)
    requires a != [] && b != [] && Increasing(a) && Increasing(b) && SameElements(a, b)
    ensures a[|a| - 1] == b[|b| - 1]
    ensures Increasing(a[..|a| - 1])
    ensures var c, d := a[..|a| - 1], b[..|b| - 1]; forall i <- c :: i in d
  {
    var x, y := a[|a| - 1], b[|b| - 1];
    assert x in b && y in a;
    assert x == y;
    forall k | 0 <= k < |a| - 1
      ensures a[k] in b[..|b| - 1]
    {
      assert a[k] in b;
    }
  }

  lemma DisplacedIsUnique(rules: Rules, pair: Pair, visible: seq<Candle>, zones: seq<Zone>, a: seq<Zone>, b: seq<Zone>)
    requires Displaced(rules, pair, visible, zones, a) && Displaced(rules, pair, visible, zones, b)
    ensures a == b
  {
    var s: seq<nat> :| Picks(rules, pair, visible, zones, 0, a, s);
    var t: seq<nat> :| Picks(rules, pair, visible, zones, 0, b, t);
    IncreasingSame(s, t);
  }

  lemma OfferedIsUnique(rules: Rules, pair: Pair, visible: seq<Candle>, zones: seq<Zone>)
    requires Offered(rules, pair, visible, zones)
    ensures zones == ZonesIn(rules, pair, visible)
  {
    hide Displaced;
    var l := rules.lookback(pair);
    var bars: seq<Candle> :| Newest(bars, visible, l)
      && var found := rules.findRanges(bars, pair.htf);
         if rules.useDisplacement then Displaced(rules, pair, visible, found, zones) else zones == found;
    WindowIsNewest(visible, l);
    NewestIsUnique(bars, Window(visible, l), visible, l);
    var found := rules.findRanges(bars, pair.htf);
    KeepsDisplaced(rules, pair, visible, found);
    if rules.useDisplacement {
      DisplacedIsUnique(rules, pair, visible, found, zones, KeepDisplaced(rules, pair, visible, found));
    }
  }

  lemma LeansIsUnique(rules: Rules, pair: Pair, visible: seq<Candle>, bias: Bias)
    requires Leans(rules, pair, visible, bias)
    ensures bias == BiasIn(rules, pair, visible)
  {
    var l := rules.lookback(pair);
    var bars: seq<Candle> :| Newest(bars, visible, l) && bias == rules.detect(bars);
    WindowIsNewest(visible, l);
    NewestIsUnique(bars, Window(visible, l), visible, l);
  }

  lemma EnoughIff(rules: Rules, pair: Pair, view: View)
    ensures EnoughBars(rules, pair, view) <==> |view.htf| >= rules.lookback(pair) / 3
  {}

  /** A pair admits exactly the setup described, and nothing when there is none. */
  lemma DecidesIff(rules: Rules, pair: Pair, view: View, book: Book, now: int, e: Entry)
    requires FollowsTrades(rules, book, now) && IncreasingTimes(view.ltf)
    ensures Decide(rules, pair, view, book, now) == Some(e) <==> Admits(rules, pair, view, book.trades, now, e)
  {
    hide FollowsTrades, IncreasingTimes, Yields, FirstYields, ScanZones, ZonesIn, BiasIn, EnoughBars, Leans, Offered;
    EnoughIff(rules, pair, view);
    var bias, zones := if rules.useTrend then BiasIn(rules, pair, view.htf) else Neutral, ZonesIn(rules, pair, view.htf);
    BiasLeans(rules, pair, view.htf);
    ZonesAreOffered(rules, pair, view.htf);
    ScanIff(rules, pair, view, book, bias, zones, now, e);
    if Admits(rules, pair, view, book.trades, now, e) {
      var b, z :|
        && (if rules.useTrend then Leans(rules, pair, view.htf, b) && b != Neutral else b == Neutral)
        && Offered(rules, pair, view.htf, z)
        && FirstYields(rules, pair, view, book.trades, b, z, now, e);
      OfferedIsUnique(rules, pair, view.htf, z);
      if rules.useTrend {
        LeansIsUnique(rules, pair, view.htf, b);
      }
    }
  }

  // ----- The books follow the trades along every run -----

  lemma EnterFollows(rules: Rules, book: Book, e: Entry, result: BacktestResult, now: int)
    requires FollowsTrades(rules, book, now) && Admissible(rules, book, e, now)
    ensures FollowsTrades(rules, Enter(rules, book, e, result), now)
  {
    hide CountsKept, SeenKept, LocksKept, LocksFollow, Enter;
    EnterKeepsCounts(rules, book, e, result, now);
    EnterKeepsSeen(rules, book, e, result, now);
    EnterKeepsLocks(rules, book, e, result, now);
    LocksFollowEntry(rules, book, e, result, now);
  }

  lemma LocksFollowEntry(rules: Rules, book: Book, e: Entry, result: BacktestResult, now: int)
    requires LocksFollow(rules, book, now) && e.tickTime == now
    ensures LocksFollow(rules, Enter(rules, book, e, result), now)
  {
    hide LockUntil, LockOf, KeyOf;
    var after := Enter(rules, book, e, result);
    var last := after.trades[|book.trades|];
    assert after.trades == book.trades + [last] && last in after.trades;
    assert forall t <- after.trades :: t in book.trades || t == last;
    forall k
      ensures k in after.open <==> exists t <- after.trades :: t.lock == k && (t.lockUntil > now || t.entry.tickTime == now)
    {
      if k in book.open {
        var t :| t in book.trades && t.lock == k && (t.lockUntil > now || t.entry.tickTime == now);
        assert t in after.trades;
      }
    }
    forall k | k in after.open
      ensures exists t <- after.trades :: t.lock == k && t.lockUntil == after.open[k]
    {
      if k != last.lock {
        var t :| t in book.trades && t.lock == k && t.lockUntil == book.open[k];
        assert t in after.trades;
      }
    }
  }

  lemma {:induction false} PairsFollow(rules: Rules, mkt: Market, book: Book, now: int, close: int, n: nat)
    requires ValidMarket(rules, mkt) && n <= |rules.pairs| && FollowsTrades(rules, book, now)
    ensures FollowsTrades(rules, PairsTick(rules, mkt, book, now, close, n), now)
  {
    hide FollowsTrades, Decide, Enter, Admissible, BisectRight, LastClosedOpen, ResultOf;
    if n > 0 {
      PairsFollow(rules, mkt, book, now, close, n - 1);
      var before, pair := PairsTick(rules, mkt, book, now, close, n - 1), rules.pairs[n - 1];
      var e := Decide(rules, pair, ViewOf(rules, mkt, pair, close), before, now);
      if e.Some? {
        DecisionsAreAdmissible(rules, pair, ViewOf(rules, mkt, pair, close), before, now);
        EnterFollows(rules, before, e.value,
                     ResultOf(rules, mkt, pair, e.value.plan, LtfCount(rules, mkt, pair, close)), now);
      }
    }
  }

  lemma ExpiryFollows(rules: Rules, book: Book, earlier: int, now: int)
    requires FollowsTrades(rules, book, earlier) && earlier < now
    ensures FollowsTrades(rules, ExpireLocks(book, now), now)
  {
    hide CountsKept, SeenKept, LockUntil, LockOf;
    KeptThroughExpiry(rules, book, earlier, now);
    var after := ExpireLocks(book, now);
    forall t | t in book.trades && t.lockUntil > now
      ensures t.lock in after.open
    {}
  }

  lemma KeptThroughExpiry(rules: Rules, book: Book, earlier: int, now: int)
    requires Kept(rules, book, earlier) && earlier <= now
    ensures Kept(rules, ExpireLocks(book, now), now)
  {
    hide *;
    ExpiryKeeps(rules, book, earlier, now);
  }

  lemma NothingFollows(rules: Rules, now: int)
    ensures FollowsTrades(rules, EMPTY_BOOK, now)
  {
    EmptyKept(rules, now);
  }

  /** At every master bar of a run, before each pair decides, the books say no more than the trades do. */
  lemma {:induction false} RunFollows(rules: Rules, mkt: Market, start: nat, i: nat)
    requires ValidMarket(rules, mkt) && Master(rules) in mkt.ltf && i < |mkt.ltf[Master(rules)]|
    ensures var now := mkt.ltf[Master(rules)][i].timestamp;
            FollowsTrades(rules, ExpireLocks(RunTo(rules, mkt, start, i), now), now)
    decreases i
  {
    hide FollowsTrades, PairsTick, ExpireLocks;
    var master := mkt.ltf[Master(rules)];
    if i <= start {
      NothingFollows(rules, master[i].timestamp - 1);
      ExpiryFollows(rules, EMPTY_BOOK, master[i].timestamp - 1, master[i].timestamp);
    } else {
      RunFollows(rules, mkt, start, i - 1);
      var before := master[i - 1].timestamp;
      PairsFollow(rules, mkt, ExpireLocks(RunTo(rules, mkt, start, i - 1), before), before,
                  before + rules.intervalMs(Master(rules)), |rules.pairs|);
      ExpiryFollows(rules, RunTo(rules, mkt, start, i), before, master[i].timestamp);
    }
  }

  /** The books when pair `n` decides at master bar `i`. */
  function BooksAt(rules: Rules, mkt: Market, start: nat, i: nat, n: nat): Book
    requires ValidMarket(rules, mkt) && Master(rules) in mkt.ltf && i < |mkt.ltf[Master(rules)]| && n <= |rules.pairs|
  {
    var now := mkt.ltf[Master(rules)][i].timestamp;
    PairsTick(rules, mkt, ExpireLocks(RunTo(rules, mkt, start, i), now), now, now + rules.intervalMs(Master(rules)), n)
  }

  /** The trade follows from the setup it was entered on and the bars that were not yet visible. */
  ghost predicate PlaysOut(rules: Rules, mkt: Market, view: View, e: Entry, t: Trade)
    requires e.pair.ltf in mkt.ltf
  {
    var ltf := mkt.ltf[e.pair.ltf];
    && t.entry == e && |view.ltf| <= |ltf|
    && t.result == Simulated(e.plan, rules.profileOf(e.pair), rules.givebackPct, ltf[|view.ltf|..]).result
    && (forall now: int :: Lasts(rules, t, now) <==> t.lockUntil > now)
  }

  /** The pair's decision adds the trade of the setup it admits, or nothing when none is admitted. */
  ghost predicate Adds(rules: Rules, mkt: Market, pair: Pair, view: View, before: seq<Trade>, now: int, after: seq<Trade>)
    requires pair.ltf in mkt.ltf
  {
    || (after == before && forall e :: !Admits(rules, pair, view, before, now, e))
    || exists e: Entry, t: Trade ::
         && Admits(rules, pair, view, before, now, e) && e.pair == pair
         && PlaysOut(rules, mkt, view, e, t) && after == before + [t]
  }

  /** At the master bar opening at `now`, the view shows the bars closed with it, and the pair decides on it. */
  ghost predicate AddsAt(rules: Rules, mkt: Market, pair: Pair, now: int, view: View, before: seq<Trade>, after: seq<Trade>)
    requires ValidMarket(rules, mkt) && pair in rules.pairs
  {
    && ShowsClosed(rules, mkt, pair, now + rules.intervalMs(Master(rules)), view)
    && Adds(rules, mkt, pair, view, before, now, after)
  }

  /**
   One decision of a run: with every closed bar visible and no other, a trade is added exactly when the chart
   and the trades entered before it admit one, it is that setup's, and it lives on the bars after the visible ones.
   */
  lemma RunDecides(rules: Rules, mkt: Market, start: nat, i: nat, n: nat) returns (view: View)
    requires ValidMarket(rules, mkt) && Master(rules) in mkt.ltf && i < |mkt.ltf[Master(rules)]| && n < |rules.pairs|
    ensures var now, pair := mkt.ltf[Master(rules)][i].timestamp, rules.pairs[n];
            AddsAt(rules, mkt, pair, now, view, BooksAt(rules, mkt, start, i, n).trades,
                   BooksAt(rules, mkt, start, i, n + 1).trades)
  {
    hide FollowsTrades, Adds, ShowsClosed, PairTick, ViewOf, ExpireLocks;
    var now, pair := mkt.ltf[Master(rules)][i].timestamp, rules.pairs[n];
    var close := now + rules.intervalMs(Master(rules));
    RunFollows(rules, mkt, start, i);
    PairsFollow(rules, mkt, ExpireLocks(RunTo(rules, mkt, start, i), now), now, close, n);
    view := ViewOf(rules, mkt, pair, close);
    ViewShowsClosed(rules, mkt, pair, close);
    PairDecides(rules, mkt, pair, BooksAt(rules, mkt, start, i, n), now, close);
  }

  lemma PairDecides(rules: Rules, mkt: Market, pair: Pair, book: Book, now: int, close: int)
    requires ValidMarket(rules, mkt) && pair in rules.pairs && FollowsTrades(rules, book, now)
    ensures Adds(rules, mkt, pair, ViewOf(rules, mkt, pair, close), book.trades, now,
                 PairTick(rules, mkt, pair, book, now, close).trades)
  {
    hide FollowsTrades, Admits, Decide, BisectRight, LastClosedOpen, Simulated, PlaysOut, Admissible, IncreasingTimes;
    var view := ViewOf(rules, mkt, pair, close);
    var decided := Decide(rules, pair, view, book, now);
    PrefixIncreases(mkt.ltf[pair.ltf], |view.ltf|);
    forall e {
      DecidesIff(rules, pair, view, book, now, e);
    }
    if decided.Some? {
      DecisionsAreAdmissible(rules, pair, view, book, now);
      var e := decided.value;
      EnteredPlaysOut(rules, mkt, view, book, e, LtfCount(rules, mkt, pair, close));
      var t := PairTick(rules, mkt, pair, book, now, close).trades[|book.trades|];
      assert PlaysOut(rules, mkt, view, e, t);
    }
  }

  lemma PrefixIncreases(cs: seq<Candle>, n: nat)
    requires IncreasingTimes(cs) && n <= |cs|
    ensures IncreasingTimes(cs[..n])
  {}

  lemma EnteredPlaysOut(rules: Rules, mkt: Market, view: View, book: Book, e: Entry, seen: nat)
    requires e.pair.ltf in mkt.ltf && seen == |view.ltf| <= |mkt.ltf[e.pair.ltf]|
    ensures var after := Enter(rules, book, e, ResultOf(rules, mkt, e.pair, e.plan, seen)).trades;
            && |after| == |book.trades| + 1 && after == book.trades + [after[|book.trades|]]
            && PlaysOut(rules, mkt, view, e, after[|book.trades|])
  {
    hide Simulated, LockUntil, Lasts;
    var t := Enter(rules, book, e, ResultOf(rules, mkt, e.pair, e.plan, seen)).trades[|book.trades|];
    forall now: int {
      LockLasts(rules, t, now);
    }
  }

  /** The decisions follow one another: pair after pair, and bar after bar from the first one with no trades. */
  lemma DecisionsChain(rules: Rules, mkt: Market, start: nat, i: nat)
    requires ValidMarket(rules, mkt) && Master(rules) in mkt.ltf && i < |mkt.ltf[Master(rules)]|
    ensures i <= start ==> RunTo(rules, mkt, start, i).trades == []
    ensures BooksAt(rules, mkt, start, i, 0).trades == RunTo(rules, mkt, start, i).trades
    ensures i >= start ==> BooksAt(rules, mkt, start, i, |rules.pairs|).trades == RunTo(rules, mkt, start, i + 1).trades
  {
    hide PairTick;
  }

  // ----- Which bars a run decides on -----

  /** The master bars are those of the finest lower timeframe, the first one listed among equals. */
  lemma {:induction false} MasterIsFinest(rules: Rules, n: nat) returns (k: nat)
    requires 0 < n <= |rules.pairs|
    ensures k < n && MasterOf(rules, n) == rules.pairs[k].ltf
    ensures forall j :: 0 <= j < n ==> rules.intervalMs(rules.pairs[k].ltf) <= rules.intervalMs(rules.pairs[j].ltf)
    ensures forall j :: 0 <= j < k ==> rules.intervalMs(rules.pairs[k].ltf) < rules.intervalMs(rules.pairs[j].ltf)
  {
    if n == 1 {
      k := 0;
    } else {
      k := MasterIsFinest(rules, n - 1);
      if rules.intervalMs(rules.pairs[n - 1].ltf) < rules.intervalMs(rules.pairs[k].ltf) {
        k := n - 1;
      }
    }
  }

  lemma {:induction false} MaximaOf(rules: Rules, n: nat) returns (p: nat, q: nat)
    requires 0 < n <= |rules.pairs|
    requires forall x <- rules.pairs :: rules.intervalMs(x.htf) > 0
    ensures p < n && MaxLookback(rules, n) == rules.lookback(rules.pairs[p])
    ensures forall j :: 0 <= j < n ==> rules.lookback(rules.pairs[j]) <= MaxLookback(rules, n)
    ensures q < n && MaxHtfMinutes(rules, n) == rules.intervalMs(rules.pairs[q].htf) / 60000
    ensures forall j :: 0 <= j < n ==> rules.intervalMs(rules.pairs[j].htf) / 60000 <= MaxHtfMinutes(rules, n)
  {
    if n == 1 {
      p, q := 0, 0;
    } else {
      p, q := MaximaOf(rules, n - 1);
      p := if MaxLookback(rules, n - 1) >= rules.lookback(rules.pairs[n - 1]) then p else n - 1;
      q := if MaxHtfMinutes(rules, n - 1) >= rules.intervalMs(rules.pairs[n - 1].htf) / 60000 then q else n - 1;
    }
  }

  /** The master bars in `bars` higher-timeframe bars of length `ms`, in whole minutes. */
  function MasterBars(rules: Rules, bars: nat, ms: int): int
    requires |rules.pairs| > 0 && rules.intervalMs(Master(rules)) >= 60000
  {
    bars * (ms / 60000 / (rules.intervalMs(Master(rules)) / 60000))
  }

  lemma ScalesUp(a: int, b: int, x: int, y: int, m: int)
    requires 0 <= a <= b && 0 <= x <= y && m > 0
    ensures a * (x / m) <= b * (y / m)
  {
    FloorGrows(x, y, m);
    MoreOfMore(a, b, x / m, y / m);
  }

  lemma MoreOfMore(a: int, b: int, u: int, v: int)
    requires 0 <= a <= b && 0 <= u <= v
    ensures a * u <= b * v
  {}

  lemma FloorGrows(x: int, y: int, m: int)
    requires 0 <= x <= y && m > 0
    ensures 0 <= x / m <= y / m
  {
    EarlierBoundary(y, m, x / m);
    assert Boundary(x / m, m) <= Boundary(y / m, m);
    var d := x / m - y / m;
    assert d > 0 ==> d * m > 0;
    assert Boundary(x / m, m) == Boundary(y / m, m) + d * m;
  }

  /** The warm-up is the least that is 100 bars and covers every lookback on every higher timeframe. */
  lemma WarmUpIsLeast(rules: Rules, w: nat)
    requires |rules.pairs| > 0 && rules.intervalMs(Master(rules)) >= 60000
    requires forall x <- rules.pairs :: rules.intervalMs(x.htf) > 0
    ensures WarmUp(rules) <= w <==>
              w >= 100 && forall x, y :: x in rules.pairs && y in rules.pairs ==>
                            MasterBars(rules, rules.lookback(x), rules.intervalMs(y.htf)) <= w
  {
    var n, m := |rules.pairs|, rules.intervalMs(Master(rules)) / 60000;
    var p, q := MaximaOf(rules, n);
    var most := MasterBars(rules, rules.lookback(rules.pairs[p]), rules.intervalMs(rules.pairs[q].htf));
    assert WarmUp(rules) == Larger(100, most);
    forall x, y | x in rules.pairs && y in rules.pairs
      ensures MasterBars(rules, rules.lookback(x), rules.intervalMs(y.htf)) <= most
    {
      ScalesUp(rules.lookback(x), rules.lookback(rules.pairs[p]),
               rules.intervalMs(y.htf) / 60000, rules.intervalMs(rules.pairs[q].htf) / 60000, m);
    }
  }
}
