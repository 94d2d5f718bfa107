/**
 `MultiPairBacktester.run` as it executes: four memo tables, mutable books and
 nested loops, proved to produce the books of the cache-free run.
 */
module CachedRun {
  import opened Domain
  import opened Lifecycle
  import opened Giveback
  import opened Backtest
  import opened StructureTable
  import opened Decisions

  /** Zones a pair can be shown: those found at some length of visible history. */
  predicate Shown(rules: Rules, mkt: Market, pair: Pair, n: nat, z: Zone)
    requires pair.htf in mkt.htf
  {
    n <= |mkt.htf[pair.htf]| && z in ZonesIn(rules, pair, mkt.htf[pair.htf][..n])
  }

  /** A zone's key determines its start and its box. */
  ghost predicate KeysDetermineZones(rules: Rules, mkt: Market)
    requires forall p <- rules.pairs :: p.htf in mkt.htf
  {
    forall p, m, n, y, z :: p in rules.pairs && Shown(rules, mkt, p, m, y) && Shown(rules, mkt, p, n, z)
                            && KeyOf(p, y) == KeyOf(p, z) ==>
      StartOf(y) == StartOf(z) && BoxOf(y) == BoxOf(z)
  }

  ghost predicate Assumed(rules: Rules, mkt: Market) {
    && ValidMarket(rules, mkt)
    && (rules.useTrend ==> SharedLookback(rules))
    && KeysDetermineZones(rules, mkt)
    && (forall p <- rules.pairs :: AllWellFormed(mkt.ltf[p.ltf]))
  }

  /** Slicing the full series from a precomputed start equals slicing what is visible. */
  lemma SliceFromStart(cs: seq<Candle>, start: int, n: nat)
    requires IncreasingTimes(cs) && n <= |cs|
    ensures var lo := BisectLeft(cs, start);
            cs[..n][BisectLeft(cs[..n], start)..] == if lo <= n then cs[lo..n] else []
  {
    var lo, cut := BisectLeft(cs, start), BisectLeft(cs[..n], start);
    assert cut < n ==> cs[..n][cut].timestamp >= start;
    assert lo < n ==> cs[..n][lo].timestamp >= start;
    assert cut == if lo <= n then lo else n;
  }

  class Backtester {
    const rules: Rules
    const mkt: Market
    var msCache: map<string, (int, Bias)>
    var rangeCache: map<Pair, (int, seq<Zone>)>
    var zoneCache: map<ZoneKey, (nat, Option<Candle>)>
    var zoneLo: map<ZoneKey, nat>
    var dead: set<ZoneKey>
    var counts: map<ZoneKey, int>
    var seen: set<RejectionKey>
    var open: map<LockKey, int>
    var trades: seq<Trade>

    constructor (rules: Rules, mkt: Market)
      ensures this.rules == rules && this.mkt == mkt
      ensures Books() == EMPTY_BOOK
      ensures Assumed(rules, mkt) ==> CachesSound()
    {
      this.rules, this.mkt := rules, mkt;
      msCache, rangeCache, zoneCache, zoneLo := map[], map[], map[], map[];
      dead, counts, seen, open, trades := {}, map[], {}, map[], [];
    }

    function Books(): Book
      reads this
    {
      Book(dead, counts, seen, open, trades)
    }

    // ----- What the tables may hold -----

    ghost predicate StructureSound()
      requires Assumed(rules, mkt)
      reads this`msCache
    {
      rules.useTrend ==> TableSound(rules, mkt, msCache)
    }

    ghost predicate RangesSound()
      requires Assumed(rules, mkt)
      reads this`rangeCache
    {
      forall p, n :: p in rules.pairs && p in rangeCache && 0 < n <= |mkt.htf[p.htf]|
                     && mkt.htf[p.htf][n - 1].timestamp == rangeCache[p].0 ==>
        rangeCache[p].1 == ZonesIn(rules, p, mkt.htf[p.htf][..n])
    }

    ghost predicate StartsSound()
      requires Assumed(rules, mkt)
      reads this`zoneLo
    {
      forall p, n, z :: p in rules.pairs && Shown(rules, mkt, p, n, z) && KeyOf(p, z) in zoneLo ==>
        zoneLo[KeyOf(p, z)] == BisectLeft(mkt.ltf[p.ltf], StartOf(z))
    }

    ghost predicate EntriesSound()
      requires Assumed(rules, mkt)
      reads this`zoneCache
    {
      EntriesIn(zoneCache)
    }

    ghost predicate EntriesIn(table: map<ZoneKey, (nat, Option<Candle>)>)
      requires Assumed(rules, mkt)
    {
      forall p, n, z :: p in rules.pairs && Shown(rules, mkt, p, n, z) && KeyOf(p, z) in table ==>
        var (m, r) := table[KeyOf(p, z)];
        m <= |mkt.ltf[p.ltf]| && r == EntryIn(rules, z, mkt.ltf[p.ltf][..m])
    }

    ghost predicate CachesSound()
      requires Assumed(rules, mkt)
      reads this`msCache, this`rangeCache, this`zoneLo, this`zoneCache
    {
      StructureSound() && RangesSound() && StartsSound() && EntriesSound()
    }

    // ----- Table lookups -----

    method Structure(pair: Pair, n: nat) returns (bias: Bias)
      requires Assumed(rules, mkt) && CachesSound() && pair in rules.pairs && 0 < n <= |mkt.htf[pair.htf]|
      requires rules.useTrend
      modifies this`msCache
      ensures CachesSound()
      ensures (bias, msCache) == Lookup(rules, old(msCache), pair, mkt.htf[pair.htf][..n])
      ensures bias == BiasIn(rules, pair, mkt.htf[pair.htf][..n])
      ensures Leans(rules, pair, mkt.htf[pair.htf][..n], bias)
    {
      var visible := mkt.htf[pair.htf][..n];
      var lastTime := visible[|visible| - 1].timestamp;
      LookupIsSound(rules, mkt, msCache, pair, n);
      BiasLeans(rules, pair, visible);
      if pair.htf !in msCache || msCache[pair.htf].0 != lastTime {
        bias := rules.detect(Window(visible, rules.lookback(pair)));
        msCache := msCache[pair.htf := (lastTime, bias)];
      } else {
        bias := msCache[pair.htf].1;
      }
    }

    method Ranges(pair: Pair, n: nat) returns (zones: seq<Zone>)
      requires Assumed(rules, mkt) && CachesSound() && pair in rules.pairs && 0 < n <= |mkt.htf[pair.htf]|
      modifies this`rangeCache
      ensures CachesSound()
      ensures zones == ZonesIn(rules, pair, mkt.htf[pair.htf][..n])
      ensures Offered(rules, pair, mkt.htf[pair.htf][..n], zones)
    {
      var visible := mkt.htf[pair.htf][..n];
      ZonesAreOffered(rules, pair, visible);
      var lastTime := visible[|visible| - 1].timestamp;
      if pair !in rangeCache || rangeCache[pair].0 != lastTime {
        zones := rules.findRanges(Window(visible, rules.lookback(pair)), pair.htf);
        if rules.useDisplacement {
          zones := KeepDisplaced(rules, pair, visible, zones);
        }
        rangeCache := rangeCache[pair := (lastTime, zones)];
        forall m | 0 < m <= |mkt.htf[pair.htf]| && mkt.htf[pair.htf][m - 1].timestamp == lastTime
          ensures zones == ZonesIn(rules, pair, mkt.htf[pair.htf][..m])
        {
          LastTimeDetermines(mkt.htf[pair.htf], m, n);
        }
      } else {
        zones := rangeCache[pair].1;
      }
    }

    method StartIndex(pair: Pair, z: Zone, ghost n: nat) returns (lo: nat)
      requires Assumed(rules, mkt) && CachesSound() && pair in rules.pairs && Shown(rules, mkt, pair, n, z)
      modifies this`zoneLo
      ensures CachesSound()
      ensures lo == BisectLeft(mkt.ltf[pair.ltf], StartOf(z))
    {
      var key := KeyOf(pair, z);
      if key !in zoneLo {
        zoneLo := zoneLo[key := BisectLeft(mkt.ltf[pair.ltf], StartOf(z))];
      }
      lo := zoneLo[key];
    }

    method FindEntry(pair: Pair, z: Zone, lo: nat, m: nat, ghost n: nat) returns (rejection: Option<Candle>)
      requires Assumed(rules, mkt) && CachesSound() && pair in rules.pairs && Shown(rules, mkt, pair, n, z)
      requires m <= |mkt.ltf[pair.ltf]| && lo == BisectLeft(mkt.ltf[pair.ltf], StartOf(z))
      modifies this`zoneCache
      ensures CachesSound()
      ensures rejection == EntryIn(rules, z, mkt.ltf[pair.ltf][..m])
    {
      hide StructureSound, RangesSound, StartsSound, EntriesIn, KeyOf, BoxOf, StartOf, IncreasingTimes, KeysDetermineZones;
      TimesIncrease(pair);
      var key := KeyOf(pair, z);
      if key in zoneCache && zoneCache[key].0 == m {
        EntryIsStored(pair, z, n);
        rejection := zoneCache[key].1;
      } else {
        var ltf := mkt.ltf[pair.ltf];
        SliceFromStart(ltf, StartOf(z), m);
        rejection := rules.findEntry(if lo <= m then ltf[lo..m] else [], BoxOf(z));
        StoringKeepsEntries(pair, z, m, n);
        zoneCache := zoneCache[key := (m, rejection)];
      }
    }

    lemma TimesIncrease(pair: Pair)
      requires Assumed(rules, mkt) && pair in rules.pairs
      ensures pair.ltf in mkt.ltf && IncreasingTimes(mkt.ltf[pair.ltf])
    {}

    lemma EntryIsStored(pair: Pair, z: Zone, n: nat)
      requires Assumed(rules, mkt) && EntriesSound() && pair in rules.pairs && Shown(rules, mkt, pair, n, z)
      requires KeyOf(pair, z) in zoneCache
      ensures var (m, r) := zoneCache[KeyOf(pair, z)];
              m <= |mkt.ltf[pair.ltf]| && r == EntryIn(rules, z, mkt.ltf[pair.ltf][..m])
    {
      hide KeysDetermineZones, ZonesIn, EntryIn;
    }

    /** Any other zone with the stored key has its start and box, so the stored answer is its own. */
    lemma StoringKeepsEntries(pair: Pair, z: Zone, m: nat, n: nat)
      requires Assumed(rules, mkt) && EntriesSound() && pair in rules.pairs && Shown(rules, mkt, pair, n, z)
      requires m <= |mkt.ltf[pair.ltf]|
      ensures var stored := zoneCache[KeyOf(pair, z) := (m, EntryIn(rules, z, mkt.ltf[pair.ltf][..m]))];
              EntriesIn(stored)
    {
    }

    // ----- One zone, one pair, one tick, the run -----

    /** The body of the zone loop up to the decision. */
    method GateZone(pair: Pair, z: Zone, bias: Bias, m: nat, now: int, tickTime: int, ghost n: nat)
      returns (admitted: Option<Entry>)
      requires Assumed(rules, mkt) && CachesSound() && pair in rules.pairs && Shown(rules, mkt, pair, n, z)
      requires m <= |mkt.ltf[pair.ltf]|
      modifies this`zoneLo, this`zoneCache
      ensures CachesSound()
      ensures forall htf :: admitted
                == TryZone(rules, pair, View(htf, mkt.ltf[pair.ltf][..m], now), Books(), bias, z, tickTime)
    {
      hide StructureSound, RangesSound, StartsSound, EntriesSound;
      var key := KeyOf(pair, z);
      if key in dead || (if key in counts then counts[key] else 0) >= rules.maxSignalCount {
        return None;
      }
      var lo := StartIndex(pair, z, n);
      if rules.useTrend && bias != Leaning(z.direction) {
        return None;
      }
      var rejection := FindEntry(pair, z, lo, m, n);
      if rejection.None? {
        return None;
      }
      if RejectionKey(pair, rejection.value.timestamp) in seen {
        return None;
      }
      if LockOf(rules, pair, z.direction) in open {
        return None;
      }
      if now - rejection.value.timestamp > rules.staleMs(pair) {
        return None;
      }
      var plan := rules.build(pair, z, rejection.value);
      if plan.None? {
        return None;
      }
      var attempt := (if key in counts then counts[key] else 0) + 1;
      return Some(Entry(pair, z, rejection.value, plan.value, attempt, tickTime));
    }

    method ForgetZone(key: ZoneKey)
      requires Assumed(rules, mkt) && CachesSound()
      modifies this`zoneLo, this`zoneCache
      ensures CachesSound() && key !in zoneCache && key !in zoneLo
    {
      zoneCache := zoneCache - {key};
      zoneLo := zoneLo - {key};
    }

    /** Simulate an admitted setup and record it; a zone at its limit leaves the tables. */
    method Admit(e: Entry, m: nat)
      requires Assumed(rules, mkt) && CachesSound() && e.pair in rules.pairs && m <= |mkt.ltf[e.pair.ltf]|
      modifies this`zoneLo, this`zoneCache, this`dead, this`counts, this`seen, this`open, this`trades
      ensures CachesSound()
      ensures Books() == Enter(rules, old(Books()), e, ResultOf(rules, mkt, e.pair, e.plan, m))
      ensures e.attempt >= rules.maxSignalCount ==> KeyOf(e.pair, e.zone) !in zoneCache && KeyOf(e.pair, e.zone) !in zoneLo
      ensures e.attempt < rules.maxSignalCount ==> zoneCache == old(zoneCache) && zoneLo == old(zoneLo)
    {
      hide StructureSound, RangesSound, StartsSound, EntriesSound, KeysDetermineZones, Simulated;
      var future := mkt.ltf[e.pair.ltf][m..];
      assert AllWellFormed(future);
      var result, raised := Simulate(e.plan, rules.profileOf(e.pair), rules.givebackPct, future);
      var key := KeyOf(e.pair, e.zone);
      var lock := LockOf(rules, e.pair, e.zone.direction);
      seen := seen + {RejectionKey(e.pair, e.rejection.timestamp)};
      counts := counts[key := e.attempt];
      if e.attempt >= rules.maxSignalCount {
        dead := dead + {key};
        ForgetZone(key);
      }
      var until := LockUntil(rules, e.plan, result);
      open := open[lock := until];
      trades := trades + [Trade(e, result, lock, until)];
    }

    /** One pair at one tick. */
    method RunPair(pair: Pair, tickTime: int, close: int)
      requires Assumed(rules, mkt) && CachesSound() && pair in rules.pairs
      modifies this
      ensures CachesSound()
      ensures Books() == PairTick(rules, mkt, pair, old(Books()), tickTime, close)
    {
      hide StructureSound, RangesSound, StartsSound, EntriesSound, KeysDetermineZones;
      ghost var view, book := ViewOf(rules, mkt, pair, close), Books();
      var n := HtfCount(rules, mkt, pair, close);
      if |Window(mkt.htf[pair.htf][..n], rules.lookback(pair))| < rules.lookback(pair) / 3 {
        return;
      }
      var bias := Neutral;
      if rules.useTrend {
        bias := Structure(pair, n);
        if bias.Neutral? {
          return;
        }
      }
      var zones := Ranges(pair, n);
      var now := LastClosedOpen(close, rules.intervalMs(pair.ltf));
      var m := LtfCount(rules, mkt, pair, close);
      if m <= 0 {
        return;
      }
      assert zones[0..] == zones;
      for k := 0 to |zones|
        invariant CachesSound() && Books() == book
        invariant Decide(rules, pair, view, book, tickTime)
               == ScanZones(rules, pair, view, book, bias, zones[k..], tickTime)
      {
        assert zones[k..][1..] == zones[k + 1..];
        assert Shown(rules, mkt, pair, n, zones[k]);
        var admitted := GateZone(pair, zones[k], bias, m, now, tickTime, n);
        assert admitted == TryZone(rules, pair, view, book, bias, zones[k], tickTime);
        if admitted.Some? {
          Admit(admitted.value, m);
          return;
        }
      }
    }

    /** One master bar: expire the direction locks, then every pair in order. */
    method RunTick(tickTime: int, close: int)
      requires Assumed(rules, mkt) && CachesSound()
      modifies this
      ensures CachesSound()
      ensures Books() == PairsTick(rules, mkt, ExpireLocks(old(Books()), tickTime), tickTime, close, |rules.pairs|)
    {
      hide StructureSound, RangesSound, StartsSound, EntriesSound, KeysDetermineZones, PairTick;
      open := map k | k in open && open[k] > tickTime :: open[k];
      ghost var book := Books();
      for j := 0 to |rules.pairs|
        invariant CachesSound()
        invariant Books() == PairsTick(rules, mkt, book, tickTime, close, j)
      {
        RunPair(rules.pairs[j], tickTime, close);
      }
    }

    /**
     The whole run. The memo tables change nothing: the books are those of the
     cache-free run from the end of the warm-up to the last master bar.
     */
    method Run()
      requires Assumed(rules, mkt) && CachesSound() && Books() == EMPTY_BOOK
      requires rules.intervalMs(Master(rules)) >= 60000
      modifies this
      ensures Master(rules) in mkt.ltf
      ensures Books() == RunTo(rules, mkt, WarmUp(rules), |mkt.ltf[Master(rules)]|)
    {
      hide StructureSound, RangesSound, StartsSound, EntriesSound, KeysDetermineZones, PairsTick;
      MasterIsListed(rules, |rules.pairs|);
      var master := mkt.ltf[Master(rules)];
      var start := WarmUp(rules);
      assert |master| <= start ==> RunTo(rules, mkt, start, |master|) == EMPTY_BOOK;
      assert start <= |master| ==> RunTo(rules, mkt, start, start) == EMPTY_BOOK;
      var i := start;
      while i < |master|
        invariant start <= i && CachesSound()
        invariant i <= |master| || i == start
        invariant Books() == RunTo(rules, mkt, start, if i <= |master| then i else |master|)
      {
        RunTick(master[i].timestamp, master[i].timestamp + rules.intervalMs(Master(rules)));
        i := i + 1;
      }
    }
  }
}
