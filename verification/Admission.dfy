/** What admission guarantees over every backtest run. */
module Admission {
  import opened Domain
  import opened Giveback
  import opened Backtest

  function ZoneOf(t: Trade): ZoneKey {
    KeyOf(t.entry.pair, t.entry.zone)
  }

  function RejectionOf(t: Trade): RejectionKey {
    RejectionKey(t.entry.pair, t.entry.rejection.timestamp)
  }

  /** How many of these trades a zone has emitted. */
  function Emitted(trades: seq<Trade>, key: ZoneKey): nat {
    if trades == [] then 0
    else Emitted(trades[..|trades| - 1], key) + if ZoneOf(trades[|trades| - 1]) == key then 1 else 0
  }

  /** Every zone's signals are numbered 1, 2, 3, ... in the order they were emitted. */
  predicate NumberedInOrder(trades: seq<Trade>) {
    forall k :: 0 <= k < |trades| ==> trades[k].entry.attempt == Emitted(trades[..k], ZoneOf(trades[k])) + 1
  }

  /** Per direction lock, a later trade is entered only once the earlier one's lock has ended. */
  predicate LocksDoNotOverlap(trades: seq<Trade>) {
    forall a, b :: 0 <= a < b < |trades| && trades[a].lock == trades[b].lock ==>
      trades[a].lockUntil <= trades[b].entry.tickTime
  }

  predicate RejectionsUsedOnce(trades: seq<Trade>) {
    forall a, b :: 0 <= a < b < |trades| ==> RejectionOf(trades[a]) != RejectionOf(trades[b])
  }

  /** The zone counts, dead zones and numbering. */
  ghost predicate CountsKept(rules: Rules, book: Book) {
    && (forall key :: CountOf(book, key) == Emitted(book.trades, key))
    && (forall key <- book.counts :: 1 <= book.counts[key] <= rules.maxSignalCount)
    && (forall key :: key in book.dead <==> key in book.counts && book.counts[key] >= rules.maxSignalCount)
    && NumberedInOrder(book.trades)
  }

  ghost predicate SeenKept(book: Book) {
    && (forall r :: r in book.seen <==> exists t <- book.trades :: RejectionOf(t) == r)
    && RejectionsUsedOnce(book.trades)
  }

  /** At time `now`, every earlier trade's lock has run out or is still recorded. */
  predicate LocksKept(book: Book, now: int) {
    && (forall t <- book.trades :: t.lockUntil <= now || (t.lock in book.open && book.open[t.lock] == t.lockUntil))
    && LocksDoNotOverlap(book.trades)
  }

  ghost predicate Kept(rules: Rules, book: Book, now: int) {
    CountsKept(rules, book) && SeenKept(book) && LocksKept(book, now)
  }

  /** What a decision guarantees about the entry it admits. */
  predicate Admissible(rules: Rules, book: Book, e: Entry, tickTime: int) {
    var key := KeyOf(e.pair, e.zone);
    && key !in book.dead && CountOf(book, key) < rules.maxSignalCount
    && e.attempt == CountOf(book, key) + 1
    && RejectionKey(e.pair, e.rejection.timestamp) !in book.seen
    && LockOf(rules, e.pair, e.zone.direction) !in book.open
    && e.tickTime == tickTime
  }

  lemma {:induction false} ScanAdmits(rules: Rules, pair: Pair, view: View, book: Book, bias: Bias, zones: seq<Zone>, tickTime: int)
    ensures var e := ScanZones(rules, pair, view, book, bias, zones, tickTime);
            e.Some? ==> e.value.pair == pair && e.value.zone in zones && Admissible(rules, book, e.value, tickTime)
    decreases |zones|
  {
    if zones != [] && TryZone(rules, pair, view, book, bias, zones[0], tickTime).None? {
      ScanAdmits(rules, pair, view, book, bias, zones[1..], tickTime);
    }
  }

  lemma DecisionsAreAdmissible(rules: Rules, pair: Pair, view: View, book: Book, tickTime: int)
    ensures var e := Decide(rules, pair, view, book, tickTime);
            e.Some? ==> e.value.pair == pair && Admissible(rules, book, e.value, tickTime)
  {
    var bias := if rules.useTrend then BiasIn(rules, pair, view.htf) else Neutral;
    ScanAdmits(rules, pair, view, book, bias, ZonesIn(rules, pair, view.htf), tickTime);
  }

  lemma EmittedMore(trades: seq<Trade>, t: Trade, key: ZoneKey)
    ensures Emitted(trades + [t], key) == Emitted(trades, key) + if ZoneOf(t) == key then 1 else 0
  {
    assert (trades + [t])[..|trades|] == trades;
  }

  lemma NumberedMore(trades: seq<Trade>, t: Trade)
    requires NumberedInOrder(trades) && t.entry.attempt == Emitted(trades, ZoneOf(t)) + 1
    ensures NumberedInOrder(trades + [t])
  {
    hide Emitted, ZoneOf;
    var more := trades + [t];
    forall k | 0 <= k < |more|
      ensures more[k].entry.attempt == Emitted(more[..k], ZoneOf(more[k])) + 1
    {
      assert more[..k] == trades[..k];
      assert k == |trades| ==> trades[..k] == trades;
    }
  }

  lemma EnterKeepsCounts(rules: Rules, book: Book, e: Entry, result: BacktestResult, tickTime: int)
    requires CountsKept(rules, book) && Admissible(rules, book, e, tickTime)
    ensures CountsKept(rules, Enter(rules, book, e, result))
  {
    hide Emitted, NumberedInOrder, KeyOf, LockOf, LockUntil;
    var after := Enter(rules, book, e, result);
    var t := after.trades[|book.trades|];
    assert after.trades == book.trades + [t];
    NumberedMore(book.trades, t);
    forall other
      ensures CountOf(after, other) == Emitted(after.trades, other)
    {
      EmittedMore(book.trades, t, other);
      assert CountOf(book, other) == Emitted(book.trades, other);
    }
  }

  lemma EnterKeepsSeen(rules: Rules, book: Book, e: Entry, result: BacktestResult, tickTime: int)
    requires SeenKept(book) && Admissible(rules, book, e, tickTime)
    ensures SeenKept(Enter(rules, book, e, result))
  {
    var after := Enter(rules, book, e, result);
    var last := after.trades[|book.trades|];
    assert after.trades == book.trades + [last];
    forall r
      ensures r in after.seen <==> exists t <- after.trades :: RejectionOf(t) == r
    {
      if r in book.seen {
        var t :| t in book.trades && RejectionOf(t) == r;
        assert t in after.trades;
      }
      if r == RejectionOf(last) {
        assert last in after.trades;
      }
    }
    forall a | 0 <= a < |book.trades|
      ensures RejectionOf(book.trades[a]) != RejectionOf(last)
    {
      assert book.trades[a] in book.trades;
    }
  }

  lemma EnterKeepsLocks(rules: Rules, book: Book, e: Entry, result: BacktestResult, tickTime: int)
    requires LocksKept(book, tickTime) && Admissible(rules, book, e, tickTime)
    ensures LocksKept(Enter(rules, book, e, result), tickTime)
  {
    var after := Enter(rules, book, e, result);
    var last := after.trades[|book.trades|];
    assert after.trades == book.trades + [last];
    forall a | 0 <= a < |book.trades| && book.trades[a].lock == last.lock
      ensures book.trades[a].lockUntil <= tickTime
    {
      assert book.trades[a] in book.trades;
    }
  }

  lemma {:induction false} PairsKeep(rules: Rules, mkt: Market, book: Book, tickTime: int, close: int, n: nat)
    requires ValidMarket(rules, mkt) && n <= |rules.pairs| && Kept(rules, book, tickTime)
    ensures Kept(rules, PairsTick(rules, mkt, book, tickTime, close, n), tickTime)
  {
    if n > 0 {
      PairsKeep(rules, mkt, book, tickTime, close, n - 1);
      var before, pair := PairsTick(rules, mkt, book, tickTime, close, n - 1), rules.pairs[n - 1];
      var view := ViewOf(rules, mkt, pair, close);
      DecisionsAreAdmissible(rules, pair, view, before, tickTime);
      var e := Decide(rules, pair, view, before, tickTime);
      if e.Some? {
        var result := ResultOf(rules, mkt, pair, e.value.plan, LtfCount(rules, mkt, pair, close));
        EnterKeepsCounts(rules, before, e.value, result, tickTime);
        EnterKeepsSeen(rules, before, e.value, result, tickTime);
        EnterKeepsLocks(rules, before, e.value, result, tickTime);
      }
    }
  }

  lemma ExpiryKeeps(rules: Rules, book: Book, earlier: int, now: int)
    requires Kept(rules, book, earlier) && earlier <= now
    ensures Kept(rules, ExpireLocks(book, now), now)
  {
    var after := ExpireLocks(book, now);
    assert forall key :: CountOf(after, key) == CountOf(book, key);
  }

  lemma TickKeeps(rules: Rules, mkt: Market, book: Book, i: nat, earlier: int)
    requires ValidMarket(rules, mkt) && Master(rules) in mkt.ltf && i < |mkt.ltf[Master(rules)]|
    requires Kept(rules, book, earlier) && earlier <= mkt.ltf[Master(rules)][i].timestamp
    ensures Kept(rules, Tick(rules, mkt, book, i), mkt.ltf[Master(rules)][i].timestamp)
  {
    var tickTime := mkt.ltf[Master(rules)][i].timestamp;
    ExpiryKeeps(rules, book, earlier, tickTime);
    PairsKeep(rules, mkt, ExpireLocks(book, tickTime), tickTime,
              tickTime + rules.intervalMs(Master(rules)), |rules.pairs|);
  }

  lemma EmptyKept(rules: Rules, now: int)
    ensures Kept(rules, EMPTY_BOOK, now)
  {
  }

  /** The opening time of the last master bar processed before `upto`. */
  function LastTick(mkt: Market, master: string, upto: nat): int
    requires master in mkt.ltf && 0 < upto <= |mkt.ltf[master]|
  {
    mkt.ltf[master][upto - 1].timestamp
  }

  /**
   Over every run: a zone emits at most the configured number of signals, numbered
   from 1 without gaps; the dead zones are exactly those at the limit; no rejection
   candle is used twice for a pair; and trades under one direction lock never overlap.
   */
  lemma {:induction false} RunKeeps(rules: Rules, mkt: Market, start: nat, upto: nat)
    requires ValidMarket(rules, mkt) && Master(rules) in mkt.ltf && 0 < upto <= |mkt.ltf[Master(rules)]|
    ensures Kept(rules, RunTo(rules, mkt, start, upto), LastTick(mkt, Master(rules), upto))
    decreases upto
  {
    var now := LastTick(mkt, Master(rules), upto);
    if upto <= start {
      EmptyKept(rules, now);
    } else if upto == 1 {
      EmptyKept(rules, now);
      TickKeeps(rules, mkt, EMPTY_BOOK, 0, now);
    } else {
      RunKeeps(rules, mkt, start, upto - 1);
      TickKeeps(rules, mkt, RunTo(rules, mkt, start, upto - 1), upto - 1, LastTick(mkt, Master(rules), upto - 1));
    }
  }

  /** The numbering has no gaps: each attempt number up to a zone's count occurs, once. */
  lemma {:induction false} AttemptsHaveNoGaps(trades: seq<Trade>, key: ZoneKey, attempt: int)
    requires NumberedInOrder(trades) && 1 <= attempt <= Emitted(trades, key)
    ensures exists k :: 0 <= k < |trades| && ZoneOf(trades[k]) == key && trades[k].entry.attempt == attempt
  {
    var n := |trades| - 1;
    var init := trades[..n];
    assert forall k :: 0 <= k < n ==> init[..k] == trades[..k] && init[k] == trades[k];
    if attempt <= Emitted(init, key) {
      AttemptsHaveNoGaps(init, key, attempt);
      var k :| 0 <= k < n && ZoneOf(init[k]) == key && init[k].entry.attempt == attempt;
      assert ZoneOf(trades[k]) == key && trades[k].entry.attempt == attempt;
    } else {
      assert ZoneOf(trades[n]) == key && trades[n].entry.attempt == attempt;
    }
  }
}
