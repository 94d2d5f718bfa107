/**
 The event-driven mitigation simulator of src/app/backtesting/streak_analysis.py.
 A heap of open trades is drained before each entry; the lemmas show that every
 rule sees exactly the earlier trades that had closed by then, settled in close order.
 The heap is kept as its sorted contents: head least, insertion in place.
 */
module Mitigation {
  import opened Domain

  datatype Res = B | L | W

  datatype Trade = Trade(entry: int, close: int, day: int, r: real, res: Res)

  /** A heap tuple; `index` only separates tuples that are otherwise equal. */
  datatype Item = Item(close: int, r: real, res: Res, day: int, mult: real, index: nat, instant: bool)

  function Rank(x: Res): nat {
    match x
    case B => 0
    case L => 1
    case W => 2
  }

  /** Python's order on the tuples after their first component. */
  predicate TailLess(a: Item, b: Item) {
    if a.r != b.r then a.r < b.r
    else if a.res != b.res then Rank(a.res) < Rank(b.res)
    else if a.day != b.day then a.day < b.day
    else if a.mult != b.mult then a.mult < b.mult
    else a.index < b.index
  }

  predicate TupleLess(a: Item, b: Item) {
    if a.close != b.close then a.close < b.close else TailLess(a, b)
  }

  predicate HeapOrdered(s: seq<Item>) {
    forall i, j :: 0 <= i < j < |s| ==> TupleLess(s[i], s[j])
  }

  function HeapPush(s: seq<Item>, it: Item): (r: seq<Item>)
    ensures multiset(r) == multiset(s) + multiset{it}
  {
    if s == [] || TupleLess(it, s[0]) then [it] + s
    else
      assert s == [s[0]] + s[1..];
      [s[0]] + HeapPush(s[1..], it)
  }

  lemma TupleOrder(a: Item, b: Item, c: Item)
    ensures TupleLess(a, b) && TupleLess(b, c) ==> TupleLess(a, c)
    ensures a.index != b.index && !TupleLess(a, b) ==> TupleLess(b, a)
  {}

  lemma HeapTail(s: seq<Item>)
    requires s != [] && HeapOrdered(s)
    ensures HeapOrdered(s[1..]) && forall y <- s[1..] :: TupleLess(s[0], y)
  {
    hide TupleLess;
  }

  lemma HeapCons(x: Item, s: seq<Item>)
    requires HeapOrdered(s) && forall y <- s :: TupleLess(x, y)
    ensures HeapOrdered([x] + s)
  {
    hide TupleLess;
    var t := [x] + s;
    forall i, j | 0 <= i < j < |t| ensures TupleLess(t[i], t[j]) {
      assert t[j] == s[j - 1] && s[j - 1] in s;
      assert i > 0 ==> t[i] == s[i - 1];
    }
  }

  lemma {:induction false} HeapPushOrdered(s: seq<Item>, it: Item)
    requires HeapOrdered(s) && (forall x <- s :: x.index != it.index)
    ensures HeapOrdered(HeapPush(s, it))
  {
    hide HeapOrdered, TupleLess;
    if s == [] {
      NoHeap();
      HeapCons(it, []);
    } else {
      var head, tail := s[0], s[1..];
      assert s == [head] + tail && head in s && forall x <- tail :: x in s;
      HeapTail(s);
      if TupleLess(it, head) {
        forall y | y in tail ensures TupleLess(it, y) { TupleOrder(it, head, y); }
        HeapCons(it, s);
      } else {
        HeapPushOrdered(tail, it);
        var rest := HeapPush(tail, it);
        forall x | x in rest ensures TupleLess(head, x) {
          assert x in multiset(rest);
          TupleOrder(it, head, it);
        }
        HeapCons(head, rest);
      }
    }
  }

  lemma NoHeap()
    ensures HeapOrdered([])
  {}

  // ----- What settling a trade does -----

  datatype Tally = Tally(dayR: map<int, real>, dayCl: map<int, nat>, gCl: nat)

  const NOTHING := Tally(map[], map[], 0)

  function Settle(t: Tally, it: Item): Tally {
    if it.mult <= 0.0 then t
    else
      var dayR := t.dayR[it.day := (if it.day in t.dayR then t.dayR[it.day] else 0.0) + it.r * it.mult];
      match it.res
      case L => Tally(dayR, t.dayCl[it.day := (if it.day in t.dayCl then t.dayCl[it.day] else 0) + 1], t.gCl + 1)
      case W => Tally(dayR, t.dayCl[it.day := 0], 0)
      case B => t.(dayR := dayR)
  }

  /** A simulation: what settling a trade does to its state, and the multiplier of a new entry on a day. */
  datatype Sim<!A> = Sim(start: A, settle: (A, Item) -> A, decide: (A, int) -> real)

  function SettleAll<A>(sim: Sim<A>, s: seq<Item>): A {
    if s == [] then sim.start else sim.settle(SettleAll(sim, s[..|s| - 1]), s[|s| - 1])
  }

  lemma SettleNext<A>(sim: Sim<A>, s: seq<Item>, it: Item)
    ensures SettleAll(sim, s + [it]) == sim.settle(SettleAll(sim, s), it)
  {
    assert (s + [it])[..|s|] == s;
  }

  /** What a rule is shown at an entry. */
  datatype Seen = Seen(dayR: real, dayCl: nat, gCl: nat)

  function SeenOn(t: Tally, day: int): Seen {
    Seen(if day in t.dayR then t.dayR[day] else 0.0, if day in t.dayCl then t.dayCl[day] else 0, t.gCl)
  }

  function RuleSim(rule: Seen -> real): Sim<Tally> {
    Sim(NOTHING, Settle, (t: Tally, day: int) => rule(SeenOn(t, day)))
  }

  // ----- The offline definition -----

  /**
   Close order: earlier closes first; at equal closes the trades that lasted before
   those that closed as they opened, the former in tuple order, the latter in entry order.
   */
  predicate Precedes(a: Item, b: Item) {
    if a.close != b.close then a.close < b.close
    else if a.instant != b.instant then b.instant
    else if a.instant then a.index < b.index
    else TailLess(a, b)
  }

  predicate InCloseOrder(s: seq<Item>) {
    forall i, j :: 0 <= i < j < |s| ==> Precedes(s[i], s[j])
  }

  function Place(s: seq<Item>, it: Item): (r: seq<Item>)
    ensures multiset(r) == multiset(s) + multiset{it}
  {
    if s == [] || Precedes(it, s[0]) then [it] + s
    else
      assert s == [s[0]] + s[1..];
      [s[0]] + Place(s[1..], it)
  }

  function CloseOrder(s: seq<Item>): (r: seq<Item>)
    ensures multiset(r) == multiset(s)
  {
    if s == [] then []
    else
      assert s == [s[0]] + s[1..];
      Place(CloseOrder(s[1..]), s[0])
  }

  function Due(items: seq<Item>, now: int): seq<Item> {
    if items == [] then []
    else (if items[0].close <= now then [items[0]] else []) + Due(items[1..], now)
  }

  /** The state after exactly the trades that had closed by `now`, settled in close order. */
  function Offline<A>(sim: Sim<A>, items: seq<Item>, now: int): A {
    SettleAll(sim, CloseOrder(Due(items, now)))
  }

  function ItemOf(t: Trade, mult: real, index: nat): Item {
    Item(t.close, t.r, t.res, t.day, mult, index, t.close == t.entry)
  }

  /** The first `n` trades with the multipliers they were given. */
  function Entered<A>(trades: seq<Trade>, sim: Sim<A>, n: nat): (items: seq<Item>)
    requires n <= |trades|
    ensures |items| == n
    ensures forall k :: 0 <= k < n ==> items[k] == ItemOf(trades[k], items[k].mult, k)
    decreases n, 0
  {
    if n == 0 then []
    else Entered(trades, sim, n - 1) + [ItemOf(trades[n - 1], MultAt(trades, sim, n - 1), n - 1)]
  }

  /** The multiplier of entry `i`, decided on the trades entered earlier and closed by then. */
  function MultAt<A>(trades: seq<Trade>, sim: Sim<A>, i: nat): real
    requires i < |trades|
    decreases i, 1
  {
    sim.decide(Offline(sim, Entered(trades, sim, i), trades[i].entry), trades[i].day)
  }

  /** The R each of the first `n` trades contributes. */
  function Taken<A>(trades: seq<Trade>, sim: Sim<A>, n: nat): (r: seq<real>)
    requires n <= |trades|
    ensures |r| == n
  {
    if n == 0 then []
    else Taken(trades, sim, n - 1) + [Contribution(trades[n - 1], MultAt(trades, sim, n - 1))]
  }

  function Contribution(t: Trade, mult: real): real {
    t.r * mult
  }

  function Skips<A>(trades: seq<Trade>, sim: Sim<A>, n: nat): nat
    requires n <= |trades|
  {
    if n == 0 then 0
    else Skips(trades, sim, n - 1) + if MultAt(trades, sim, n - 1) <= 0.0 then 1 else 0
  }

  // ----- Orders and multisets -----

  lemma CloseOrderLaws(a: Item, b: Item, c: Item)
    ensures Precedes(a, b) && Precedes(b, c) ==> Precedes(a, c)
    ensures a.index != b.index && !Precedes(a, b) ==> Precedes(b, a)
  {}

  lemma InOrderTail(s: seq<Item>)
    requires s != [] && InCloseOrder(s)
    ensures InCloseOrder(s[1..]) && forall y <- s[1..] :: Precedes(s[0], y)
  {
    hide Precedes;
  }

  lemma InOrderCons(x: Item, s: seq<Item>)
    requires InCloseOrder(s) && forall y <- s :: Precedes(x, y)
    ensures InCloseOrder([x] + s)
  {
    hide Precedes;
    var t := [x] + s;
    forall i, j | 0 <= i < j < |t| ensures Precedes(t[i], t[j]) {
      assert t[j] == s[j - 1] && s[j - 1] in s;
      assert i > 0 ==> t[i] == s[i - 1];
    }
  }

  lemma NothingInOrder()
    ensures InCloseOrder([])
  {}

  lemma {:induction false} PlaceInOrder(s: seq<Item>, it: Item)
    requires InCloseOrder(s) && (forall x <- s :: x.index != it.index)
    ensures InCloseOrder(Place(s, it))
  {
    hide InCloseOrder, Precedes;
    if s == [] {
      NothingInOrder();
      InOrderCons(it, []);
    } else {
      var head, tail := s[0], s[1..];
      assert s == [head] + tail && head in s && forall x <- tail :: x in s;
      InOrderTail(s);
      if Precedes(it, head) {
        forall y | y in tail ensures Precedes(it, y) { CloseOrderLaws(it, head, y); }
        InOrderCons(it, s);
      } else {
        PlaceInOrder(tail, it);
        var rest := Place(tail, it);
        forall x | x in rest ensures Precedes(head, x) {
          assert x in multiset(rest);
          CloseOrderLaws(it, head, it);
        }
        InOrderCons(head, rest);
      }
    }
  }

  predicate DistinctIndices(s: seq<Item>) {
    forall i, j :: 0 <= i < j < |s| ==> s[i].index != s[j].index
  }

  lemma {:induction false} CloseOrderInOrder(s: seq<Item>)
    requires DistinctIndices(s)
    ensures InCloseOrder(CloseOrder(s))
  {
    if s != [] {
      CloseOrderInOrder(s[1..]);
      var rest := CloseOrder(s[1..]);
      forall x | x in rest
        ensures x.index != s[0].index
      {
        assert x in multiset(rest);
        assert x in s[1..];
      }
      PlaceInOrder(rest, s[0]);
    }
  }

  lemma {:induction false} DueCount(items: seq<Item>, now: int, x: Item)
    ensures multiset(Due(items, now))[x] == if x.close <= now then multiset(items)[x] else 0
  {
    if items != [] {
      DueCount(items[1..], now, x);
      assert items == [items[0]] + items[1..];
    }
  }

  lemma {:induction false} DueDistinct(items: seq<Item>, now: int)
    requires DistinctIndices(items)
    ensures DistinctIndices(Due(items, now))
    ensures forall x <- Due(items, now) :: x in items
  {
    if items != [] {
      var rest := items[1..];
      assert DistinctIndices(rest) && forall x <- rest :: x.index != items[0].index;
      DueDistinct(rest, now);
    }
  }

  lemma SameHead(a: seq<Item>, b: seq<Item>)
    requires InCloseOrder(a) && InCloseOrder(b) && multiset(a) == multiset(b) && |a| == |b| > 0
    ensures a[0] == b[0]
  {
    assert a[0] in multiset(b) && b[0] in multiset(a);
    var j :| 0 <= j < |b| && b[j] == a[0];
    var i :| 0 <= i < |a| && a[i] == b[0];
    assert j > 0 ==> Precedes(b[0], b[j]);
    assert i > 0 ==> Precedes(a[0], a[i]);
  }

  lemma TailInOrder(s: seq<Item>)
    requires InCloseOrder(s) && s != []
    ensures InCloseOrder(s[1..]) && multiset(s[1..]) == multiset(s) - multiset{s[0]} && s == [s[0]] + s[1..]
  {
    hide Precedes;
    assert s == [s[0]] + s[1..];
  }

  /** A collection has at most one close order. */
  lemma {:induction false} CloseOrderUnique(a: seq<Item>, b: seq<Item>)
    requires InCloseOrder(a) && InCloseOrder(b) && multiset(a) == multiset(b)
    ensures a == b
    decreases |a|
  {
    assert |a| == |multiset(a)| == |multiset(b)| == |b|;
    hide InCloseOrder;
    if a != [] {
      SameHead(a, b);
      TailInOrder(a);
      TailInOrder(b);
      CloseOrderUnique(a[1..], b[1..]);
    }
  }

  // ----- Simulation data -----

  /** Entries are sorted and no trade closes before it is entered. */
  predicate ValidTrades(trades: seq<Trade>) {
    && (forall i, j :: 0 <= i < j < |trades| ==> trades[i].entry <= trades[j].entry)
    && (forall t <- trades :: t.entry <= t.close)
  }

  /** The items still pending at step `i`: past the previous entry, or entered there. */
  predicate PendingAt(trades: seq<Trade>, pending: seq<Item>, i: nat)
    requires i <= |trades|
  {
    forall x <- pending ::
      && x.index < i
      && x == ItemOf(trades[x.index], x.mult, x.index)
      && (x.index < i - 1 ==> x.close > trades[i - 1].entry)
  }

  /** Among pending items the heap order is the close order. */
  lemma HeapOrderIsCloseOrder(trades: seq<Trade>, pending: seq<Item>, i: nat, a: Item, b: Item)
    requires ValidTrades(trades) && i <= |trades| && PendingAt(trades, pending, i)
    requires a in pending && b in pending && a.index != b.index && TupleLess(a, b)
    ensures Precedes(a, b)
  {
    assert trades[i - 1] in trades;
    assert trades[a.index] in trades && trades[b.index] in trades;
  }

  /** Everything popped before comes before everything pending now. */
  lemma PoppedPrecedePending(trades: seq<Trade>, popped: seq<Item>, pending: seq<Item>, i: nat, p: Item, x: Item)
    requires ValidTrades(trades) && i <= |trades| && PendingAt(trades, pending, i) && p in popped && x in pending
    requires p.index < i - 1 && p == ItemOf(trades[p.index], p.mult, p.index) && p.close <= trades[i - 1].entry
    ensures Precedes(p, x)
  {
    assert trades[x.index] in trades;
  }

  lemma PoppedIsOffline(items: seq<Item>, popped: seq<Item>, pending: seq<Item>, now: int)
    requires DistinctIndices(items) && InCloseOrder(popped)
    requires multiset(items) == multiset(popped) + multiset(pending)
    requires (forall p <- popped :: p.close <= now) && (forall x <- pending :: x.close > now)
    ensures popped == CloseOrder(Due(items, now))
  {
    DueDistinct(items, now);
    forall x
      ensures multiset(popped)[x] == multiset(Due(items, now))[x]
    {
      DueCount(items, now, x);
      if x.close <= now {
        assert x !in pending;
        assert x !in multiset(pending);
      } else {
        assert x !in popped;
        assert x !in multiset(popped);
      }
    }
    CloseOrderInOrder(Due(items, now));
    CloseOrderUnique(popped, CloseOrder(Due(items, now)));
  }

  // ----- The simulator -----

  /** What has been popped before step `i` closed by the previous entry. */
  predicate PoppedBy(trades: seq<Trade>, popped: seq<Item>, i: nat)
    requires i <= |trades|
  {
    forall p <- popped ::
      && p.index < i - 1
      && p == ItemOf(trades[p.index], p.mult, p.index)
      && p.close <= trades[i - 1].entry
  }

  /** The state of the drain before entry `i`: popped in close order, the rest in heap order. */
  ghost predicate Drained(trades: seq<Trade>, items: seq<Item>, popped: seq<Item>, pending: seq<Item>, i: nat)
    requires i <= |trades|
  {
    && multiset(items) == multiset(popped) + multiset(pending)
    && HeapOrdered(pending) && DistinctIndices(pending) && PendingAt(trades, pending, i)
    && InCloseOrder(popped) && PoppedBy(trades, popped, i)
  }

  /** During the drain at entry `i`: what is popped comes before what is pending, and has closed by now. */
  ghost predicate Draining(trades: seq<Trade>, items: seq<Item>, popped: seq<Item>, pending: seq<Item>, i: nat)
    requires i < |trades|
  {
    && multiset(items) == multiset(popped) + multiset(pending)
    && HeapOrdered(pending) && DistinctIndices(pending) && PendingAt(trades, pending, i)
    && InCloseOrder(popped) && AllPrecede(popped, pending) && ClosedBy(trades, popped, i)
  }

  ghost predicate AllPrecede(a: seq<Item>, b: seq<Item>) {
    forall p <- a, x <- b :: Precedes(p, x)
  }

  /** These trades were entered before `i` and have closed by its entry. */
  predicate ClosedBy(trades: seq<Trade>, popped: seq<Item>, i: nat)
    requires i < |trades|
  {
    forall p <- popped :: p.close <= trades[i].entry && p.index < i && p == ItemOf(trades[p.index], p.mult, p.index)
  }

  lemma DrainStarts(trades: seq<Trade>, items: seq<Item>, popped: seq<Item>, pending: seq<Item>, i: nat)
    requires ValidTrades(trades) && i < |trades| && Drained(trades, items, popped, pending, i)
    ensures Draining(trades, items, popped, pending, i)
  {
    hide Precedes, HeapOrdered, InCloseOrder, DistinctIndices;
    forall p, x | p in popped && x in pending
      ensures Precedes(p, x)
    {
      PoppedPrecedePending(trades, popped, pending, i, p, x);
    }
    assert ClosedBy(trades, popped, i) by {
      assert i > 0 ==> trades[i - 1].entry <= trades[i].entry;
    }
  }

  lemma TailOfHeap(trades: seq<Trade>, pending: seq<Item>, i: nat)
    requires ValidTrades(trades) && i <= |trades| && pending != []
    requires HeapOrdered(pending) && DistinctIndices(pending) && PendingAt(trades, pending, i)
    ensures HeapOrdered(pending[1..]) && DistinctIndices(pending[1..]) && PendingAt(trades, pending[1..], i)
    ensures forall x <- pending[1..] :: x in pending && TupleLess(pending[0], x) && x.index != pending[0].index
  {
    hide TupleLess, ItemOf, ValidTrades;
  }

  lemma HeadPrecedesTail(trades: seq<Trade>, pending: seq<Item>, i: nat)
    requires ValidTrades(trades) && i <= |trades| && pending != []
    requires HeapOrdered(pending) && DistinctIndices(pending) && PendingAt(trades, pending, i)
    ensures AllPrecede([pending[0]], pending[1..])
  {
    hide HeapOrdered, DistinctIndices, PendingAt, Precedes, TupleLess, ValidTrades;
    TailOfHeap(trades, pending, i);
    forall x | x in pending[1..]
      ensures Precedes(pending[0], x)
    {
      HeapOrderIsCloseOrder(trades, pending, i, pending[0], x);
    }
  }

  lemma AppendInOrder(popped: seq<Item>, pending: seq<Item>)
    requires pending != [] && InCloseOrder(popped) && AllPrecede(popped, pending) && AllPrecede([pending[0]], pending[1..])
    ensures InCloseOrder(popped + [pending[0]]) && AllPrecede(popped + [pending[0]], pending[1..])
  {
    hide Precedes;
    assert forall x <- pending[1..] :: x in pending;
  }

  /** Popping the least pending item goes on with the drain. */
  lemma DrainPops(trades: seq<Trade>, items: seq<Item>, popped: seq<Item>, pending: seq<Item>, i: nat)
    requires ValidTrades(trades) && i < |trades| && Draining(trades, items, popped, pending, i)
    requires pending != [] && pending[0].close <= trades[i].entry
    ensures Draining(trades, items, popped + [pending[0]], pending[1..], i)
  {
    hide HeapOrdered, DistinctIndices, InCloseOrder, AllPrecede, ValidTrades;
    var head := pending[0];
    TailOfHeap(trades, pending, i);
    HeadPrecedesTail(trades, pending, i);
    AppendInOrder(popped, pending);
    assert pending == [head] + pending[1..];
    assert head in pending;
    assert multiset(popped + [head]) + multiset(pending[1..]) == multiset(popped) + multiset(pending);
  }

  lemma HeapHeadIsLeast(pending: seq<Item>, now: int)
    requires HeapOrdered(pending) && (pending != [] ==> pending[0].close > now)
    ensures forall x <- pending :: x.close > now
  {
    forall k | 0 <= k < |pending| ensures pending[k].close > now {
      assert k > 0 ==> TupleLess(pending[0], pending[k]);
    }
  }

  lemma DrainEnds(trades: seq<Trade>, items: seq<Item>, popped: seq<Item>, pending: seq<Item>, i: nat)
    requires ValidTrades(trades) && i < |trades| && Draining(trades, items, popped, pending, i) && DistinctIndices(items)
    requires pending != [] ==> pending[0].close > trades[i].entry
    ensures popped == CloseOrder(Due(items, trades[i].entry))
    ensures Drained(trades, items, popped, pending, i + 1) && forall x <- pending :: x.index < i
  {
    hide Precedes, DistinctIndices, InCloseOrder, AllPrecede, HeapOrdered, CloseOrder, Due;
    HeapHeadIsLeast(pending, trades[i].entry);
    PoppedIsOffline(items, popped, pending, trades[i].entry);
  }

  /** `while pending and pending[0][0] <= now`: settle every trade that has closed by entry `i`. */
  method Drain<A>(trades: seq<Trade>, sim: Sim<A>, i: nat, heap: seq<Item>, before: A,
                  ghost items: seq<Item>, ghost popped: seq<Item>)
    returns (pending: seq<Item>, tally: A, ghost after: seq<Item>)
    requires ValidTrades(trades) && i < |trades| && Drained(trades, items, popped, heap, i)
    requires DistinctIndices(items) && before == SettleAll(sim, popped)
    ensures after == CloseOrder(Due(items, trades[i].entry))
    ensures tally == SettleAll(sim, after) == Offline(sim, items, trades[i].entry)
    ensures popped <= after && Drained(trades, items, after, pending, i + 1)
    ensures forall x <- pending :: x.index < i
  {
    hide SettleAll, CloseOrder, Due, Drained, Draining, DistinctIndices, ValidTrades;
    DrainStarts(trades, items, popped, heap, i);
    pending, tally, after := heap, before, popped;
    while pending != [] && pending[0].close <= trades[i].entry
      invariant Draining(trades, items, after, pending, i)
      invariant tally == SettleAll(sim, after) && popped <= after
      decreases |pending|
    {
      DrainPops(trades, items, after, pending, i);
      SettleNext(sim, after, pending[0]);
      tally := sim.settle(tally, pending[0]);
      after := after + [pending[0]];
      pending := pending[1..];
    }
    DrainEnds(trades, items, after, pending, i);
  }

  lemma PushKeepsDrained(trades: seq<Trade>, items: seq<Item>, popped: seq<Item>, pending: seq<Item>, i: nat, mult: real)
    requires ValidTrades(trades) && i < |trades| && Drained(trades, items, popped, pending, i + 1)
    requires forall x <- pending :: x.index < i
    ensures var it := ItemOf(trades[i], mult, i);
            Drained(trades, items + [it], popped, HeapPush(pending, it), i + 1)
  {
    var it := ItemOf(trades[i], mult, i);
    var pushed := HeapPush(pending, it);
    HeapPushOrdered(pending, it);
    forall x | x in pushed
      ensures x == it || x in pending
    {
      assert x in multiset(pushed);
    }
    assert forall a, b :: 0 <= a < b < |pushed| ==> TupleLess(pushed[a], pushed[b]);
    HeapPushDistinct(pending, it);
  }

  lemma {:induction false} HeapPushDistinct(s: seq<Item>, it: Item)
    requires DistinctIndices(s) && (forall x <- s :: x.index != it.index)
    ensures DistinctIndices(HeapPush(s, it))
  {
    if s != [] && !TupleLess(it, s[0]) {
      HeapPushDistinct(s[1..], it);
      var rest := HeapPush(s[1..], it);
      forall x | x in rest
        ensures x.index != s[0].index
      {
        assert x in multiset(rest);
      }
    }
  }

  /** What has been popped before entry `i`: the earlier entries that had closed by the last one, in close order. */
  function PoppedBefore<A>(trades: seq<Trade>, sim: Sim<A>, i: nat): seq<Item>
    requires i <= |trades|
  {
    if i == 0 then [] else CloseOrder(Due(Entered(trades, sim, i - 1), trades[i - 1].entry))
  }

  /** The loop state before entry `i`. */
  ghost predicate AtEntry<A>(trades: seq<Trade>, sim: Sim<A>, i: nat, popped: seq<Item>, pending: seq<Item>, tally: A)
    requires i <= |trades|
  {
    && Drained(trades, Entered(trades, sim, i), popped, pending, i)
    && tally == SettleAll(sim, popped) && popped == PoppedBefore(trades, sim, i)
  }

  lemma FirstEntry<A>(trades: seq<Trade>, sim: Sim<A>)
    ensures AtEntry(trades, sim, 0, [], [], sim.start) && Taken(trades, sim, 0) == [] && Skips(trades, sim, 0) == 0
  {
    NothingDrained(trades, sim);
  }

  lemma EntriesAreDistinct<A>(trades: seq<Trade>, sim: Sim<A>, i: nat)
    requires i <= |trades|
    ensures DistinctIndices(Entered(trades, sim, i))
  {
    hide MultAt;
  }

  /** A drain followed by a push leads to the next entry. */
  lemma NextEntry<A>(trades: seq<Trade>, sim: Sim<A>, i: nat, after: seq<Item>, pending: seq<Item>, tally: A)
    requires ValidTrades(trades) && i < |trades|
    requires Drained(trades, Entered(trades, sim, i), after, pending, i + 1) && (forall x <- pending :: x.index < i)
    requires after == CloseOrder(Due(Entered(trades, sim, i), trades[i].entry))
    requires tally == SettleAll(sim, after) == Offline(sim, Entered(trades, sim, i), trades[i].entry)
    ensures var mult := sim.decide(tally, trades[i].day);
            && AtEntry(trades, sim, i + 1, after, HeapPush(pending, ItemOf(trades[i], mult, i)), tally)
            && Taken(trades, sim, i + 1) == Taken(trades, sim, i) + [Contribution(trades[i], mult)]
            && Skips(trades, sim, i + 1) == Skips(trades, sim, i) + if mult <= 0.0 then 1 else 0
  {
    hide Drained, SettleAll, CloseOrder, Due, HeapPush, Offline, ItemOf, Contribution, ValidTrades;
    PushKeepsDrained(trades, Entered(trades, sim, i), after, pending, i, MultAt(trades, sim, i));
  }

  /** At the end nothing more is popped. */
  lemma LastEntry<A>(trades: seq<Trade>, sim: Sim<A>, popped: seq<Item>, pending: seq<Item>, tally: A)
    requires AtEntry(trades, sim, |trades|, popped, pending, tally)
    ensures popped == PoppedBefore(trades, sim, |trades|)
    ensures InCloseOrder(popped) && multiset(popped) <= multiset(Entered(trades, sim, |trades|))
  {
    hide SettleAll, PoppedBefore, Entered;
    DrainedPops(trades, Entered(trades, sim, |trades|), popped, pending, |trades|);
  }

  lemma RuleDecides(rule: Seen -> real)
    ensures RuleSim(rule).start == NOTHING
    ensures forall t, day :: RuleSim(rule).decide(t, day) == rule(SeenOn(t, day))
  {}

  /**
   `simulate`: the R each trade contributes under the rule, and how many entries were
   skipped. Each multiplier is the rule's answer on exactly the trades closed by then,
   and over the whole run exactly the trades closed by the last entry are popped, in close order.
   */
  method Simulate(trades: seq<Trade>, rule: Seen -> real, monthOf: int -> int)
    returns (taken: seq<real>, skipped: nat, summary: Summary, ghost popped: seq<Item>)
    requires ValidTrades(trades)
    ensures taken == Taken(trades, RuleSim(rule), |trades|)
    ensures |taken| == |trades| && summary == SummaryOf(trades, taken, monthOf)
    ensures skipped == Skips(trades, RuleSim(rule), |trades|)
    ensures popped == PoppedBefore(trades, RuleSim(rule), |trades|)
    ensures InCloseOrder(popped) && multiset(popped) <= multiset(Entered(trades, RuleSim(rule), |trades|))
  {
    hide AtEntry, Drained, Offline, HeapPush, SettleAll, SeenOn, RuleSim, SummaryOf, Taken, Skips, Entered, MultAt, PoppedBefore,
         DistinctIndices, InCloseOrder, ItemOf, Contribution, ValidTrades, CloseOrder, Due;
    ghost var sim := RuleSim(rule);
    RuleDecides(rule);
    var pending: seq<Item> := [];
    var tally := NOTHING;
    taken, skipped, popped := [], 0, [];
    FirstEntry(trades, sim);
    for i := 0 to |trades|
      invariant taken == Taken(trades, sim, i) && skipped == Skips(trades, sim, i)
      invariant AtEntry(trades, sim, i, popped, pending, tally)
    {
      ghost var items := Entered(trades, sim, i);
      EntriesAreDistinct(trades, sim, i);
      Draw(trades, sim, i, popped, pending, tally);
      pending, tally, popped := Drain(trades, RuleSim(rule), i, pending, tally, items, popped);
      var mult := rule(SeenOn(tally, trades[i].day));
      NextEntry(trades, sim, i, popped, pending, tally);
      if mult <= 0.0 {
        skipped := skipped + 1;
      }
      pending := HeapPush(pending, ItemOf(trades[i], mult, i));
      taken := taken + [Contribution(trades[i], mult)];
    }
    LastEntry(trades, sim, popped, pending, tally);
    summary := SummaryOf(trades, taken, monthOf);
  }

  lemma Draw<A>(trades: seq<Trade>, sim: Sim<A>, i: nat, popped: seq<Item>, pending: seq<Item>, tally: A)
    requires i <= |trades| && AtEntry(trades, sim, i, popped, pending, tally)
    ensures Drained(trades, Entered(trades, sim, i), popped, pending, i) && tally == SettleAll(sim, popped)
  {
    hide Drained, SettleAll, PoppedBefore, Entered;
  }

  // ----- What the rules are shown -----

  /** A settled trade that was taken, as a win or as a loss. */
  predicate TakenWin(it: Item) { it.mult > 0.0 && it.res == W }

  predicate TakenLoss(it: Item) { it.mult > 0.0 && it.res == L }

  /** Where the last taken win of a sequence ends. */
  function LastWinEnd(s: seq<Item>): (w: nat)
    ensures w <= |s| && (w > 0 ==> TakenWin(s[w - 1]))
    ensures forall k :: w <= k < |s| ==> !TakenWin(s[k])
  {
    if s == [] then 0 else if TakenWin(s[|s| - 1]) then |s| else LastWinEnd(s[..|s| - 1])
  }

  function LossCount(s: seq<Item>): nat {
    if s == [] then 0 else LossCount(s[..|s| - 1]) + if TakenLoss(s[|s| - 1]) then 1 else 0
  }

  /** The taken losses after the last taken win. */
  function LosingStreak(s: seq<Item>): nat {
    LossCount(s[LastWinEnd(s)..])
  }

  function OnDay(s: seq<Item>, day: int): (r: seq<Item>)
    ensures forall it <- r :: it.day == day
  {
    if s == [] then [] else OnDay(s[..|s| - 1], day) + if s[|s| - 1].day == day then [s[|s| - 1]] else []
  }

  /** What the taken trades of a sequence contributed. */
  function TakenR(s: seq<Item>): real {
    if s == [] then 0.0
    else TakenR(s[..|s| - 1]) + if s[|s| - 1].mult > 0.0 then s[|s| - 1].r * s[|s| - 1].mult else 0.0
  }

  lemma StreakMore(s: seq<Item>, it: Item)
    ensures LosingStreak(s + [it])
         == if TakenWin(it) then 0 else LosingStreak(s) + if TakenLoss(it) then 1 else 0
    ensures TakenR(s + [it]) == TakenR(s) + if it.mult > 0.0 then it.r * it.mult else 0.0
  {
    var t := s + [it];
    assert t[..|t| - 1] == s && t[|t| - 1] == it;
    if !TakenWin(it) {
      var b := t[LastWinEnd(s)..];
      assert LastWinEnd(t) == LastWinEnd(s);
      assert b[..|b| - 1] == s[LastWinEnd(s)..] && b[|b| - 1] == it;
    } else {
      assert t[|t|..] == [];
    }
  }

  lemma OnDayMore(s: seq<Item>, it: Item, day: int)
    ensures OnDay(s + [it], day) == OnDay(s, day) + if it.day == day then [it] else []
  {
    assert (s + [it])[..|s|] == s;
  }

  /** Over any settled trades, the tally counts what its names say: overall and on every day. */
  lemma {:induction false} TallyCounts(rule: Seen -> real, s: seq<Item>, day: int)
    ensures SeenOn(SettleAll(RuleSim(rule), s), day)
         == Seen(TakenR(OnDay(s, day)), LosingStreak(OnDay(s, day)), LosingStreak(s))
  {
    hide LosingStreak, TakenR, OnDay;
    if s == [] {
      NothingCounted(day);
    } else {
      var m := |s| - 1;
      var before, it := s[..m], s[m];
      assert s == before + [it];
      TallyCounts(rule, before, day);
      StreakMore(before, it);
      StreakMore(OnDay(before, day), it);
      OnDayMore(before, it, day);
      assert OnDay(before, day) + [] == OnDay(before, day);
    }
  }

  lemma NothingCounted(day: int)
    ensures LosingStreak([]) == 0 && OnDay([], day) == [] && TakenR([]) == 0.0
  {}

  /** The earlier trades that have closed by entry `i`, in close order. */
  function ClosedBefore<A>(trades: seq<Trade>, sim: Sim<A>, i: nat): seq<Item>
    requires i < |trades|
  {
    CloseOrder(Due(Entered(trades, sim, i), trades[i].entry))
  }

  /** An earlier trade, closed by entry `i`, as it waits on the heap: its own figures and the multiplier it was entered with. */
  predicate Waited<A>(trades: seq<Trade>, sim: Sim<A>, i: nat, it: Item)
    requires i < |trades|
  {
    && it.index < i && it.close <= trades[i].entry
    && it.close == trades[it.index].close && it.r == trades[it.index].r && it.res == trades[it.index].res
    && it.day == trades[it.index].day && it.mult == MultAt(trades, sim, it.index)
    && it.instant == (trades[it.index].close == trades[it.index].entry)
  }

  /** What is settled by entry `i`: each earlier trade that has closed by then, once, the earlier closes first. */
  lemma ClosedBeforeIs<A>(trades: seq<Trade>, sim: Sim<A>, i: nat)
    requires i < |trades|
    ensures var closed := ClosedBefore(trades, sim, i);
            && (forall it :: it in closed <==> Waited(trades, sim, i, it))
            && (forall a, b :: 0 <= a < b < |closed| ==> closed[a].close <= closed[b].close) && DistinctIndices(closed)
            && InCloseOrder(closed)
  {
    hide MultAt, CloseOrder, InCloseOrder, DistinctIndices, Waited;
    var items, now := Entered(trades, sim, i), trades[i].entry;
    var due := Due(items, now);
    var closed := CloseOrder(due);
    EntriesAreDistinct(trades, sim, i);
    DueDistinct(items, now);
    CloseOrderInOrder(due);
    ClosesAscend(closed);
    StaysDistinct(due, closed);
    forall it
      ensures it in closed <==> Waited(trades, sim, i, it)
    {
      DueCount(items, now, it);
      assert it in closed <==> it in multiset(due);
      assert it in items <==> it in multiset(items);
      EnteredIff(trades, sim, i, it);
    }
  }

  lemma ClosesAscend(s: seq<Item>)
    requires InCloseOrder(s)
    ensures forall a, b :: 0 <= a < b < |s| ==> s[a].close <= s[b].close
  {}

  lemma EnteredIff<A>(trades: seq<Trade>, sim: Sim<A>, i: nat, it: Item)
    requires i < |trades|
    ensures it in Entered(trades, sim, i) && it.close <= trades[i].entry <==> Waited(trades, sim, i, it)
  {
    hide MultAt;
    EnteredMults(trades, sim, i);
    var items := Entered(trades, sim, i);
    if Waited(trades, sim, i, it) {
      assert items[it.index] == it;
    }
  }

  lemma {:induction false} EnteredMults<A>(trades: seq<Trade>, sim: Sim<A>, n: nat)
    requires n <= |trades|
    ensures forall k :: 0 <= k < n ==> Entered(trades, sim, n)[k].mult == MultAt(trades, sim, k)
  {
    hide MultAt;
    if n > 0 {
      EnteredMults(trades, sim, n - 1);
    }
  }

  lemma StaysDistinct(a: seq<Item>, b: seq<Item>)
    requires DistinctIndices(a) && multiset(a) == multiset(b)
    ensures DistinctIndices(b)
  {
    forall i, j | 0 <= i < j < |b|
      ensures b[i].index != b[j].index
    {
      var rest := b[..i] + b[i + 1..];
      assert b == b[..i] + [b[i]] + b[i + 1..];
      assert b[j] == rest[j - 1];
      if b[i] == b[j] {
        assert multiset(b)[b[i]] >= 2;
        OnceEach(a, b[i]);
      } else {
        assert b[i] in multiset(b) && b[j] in multiset(b);
        assert b[i] in a && b[j] in a;
      }
    }
  }

  lemma {:induction false} OnceEach(a: seq<Item>, x: Item)
    requires DistinctIndices(a)
    ensures multiset(a)[x] <= 1
  {
    if a != [] {
      var m := |a| - 1;
      assert a == a[..m] + [a[m]];
      OnceEach(a[..m], x);
      assert x == a[m] ==> x !in a[..m];
    }
  }

  lemma ContributionIsProduct(t: Trade, mult: real)
    ensures Contribution(t, mult) == t.r * mult
  {}

  lemma OneMore<A>(trades: seq<Trade>, sim: Sim<A>, i: nat)
    requires i < |trades|
    ensures Taken(trades, sim, i + 1) == Taken(trades, sim, i) + [Contribution(trades[i], MultAt(trades, sim, i))]
    ensures Skips(trades, sim, i + 1) == Skips(trades, sim, i) + if MultAt(trades, sim, i) > 0.0 then 0 else 1
  {
    hide MultAt, Contribution;
  }

  /**
   What decides entry `i`: the R its day has brought so far, its day's losing streak, and the losing streak of
   all, each over the trades taken earlier and closed by then; and the entry contributes its R at that multiplier.
   */
  lemma RuleSees(trades: seq<Trade>, rule: Seen -> real, i: nat)
    requires i < |trades|
    ensures var closed, day := ClosedBefore(trades, RuleSim(rule), i), trades[i].day;
            var mult := rule(Seen(TakenR(OnDay(closed, day)), LosingStreak(OnDay(closed, day)), LosingStreak(closed)));
            && MultAt(trades, RuleSim(rule), i) == mult
            && Taken(trades, RuleSim(rule), i + 1) == Taken(trades, RuleSim(rule), i) + [Contribution(trades[i], mult)]
            && Contribution(trades[i], mult) == trades[i].r * mult
            && Skips(trades, RuleSim(rule), i + 1) == Skips(trades, RuleSim(rule), i) + if mult > 0.0 then 0 else 1
  {
    hide LosingStreak, TakenR, OnDay, SettleAll, CloseOrder, Due, Entered, SeenOn, Taken, Skips, Contribution;
    RuleDecides(rule);
    OneMore(trades, RuleSim(rule), i);
    var closed, day := ClosedBefore(trades, RuleSim(rule), i), trades[i].day;
    TallyCounts(rule, closed, day);
    var mult := rule(Seen(TakenR(OnDay(closed, day)), LosingStreak(OnDay(closed, day)), LosingStreak(closed)));
    assert MultAt(trades, RuleSim(rule), i) == mult;
    ContributionIsProduct(trades[i], mult);
  }

  // ----- The equity filter -----

  /** Realised equity and its running peak, from zero. */
  datatype Equity = Equity(eq: real, peak: real)

  function SettleEquity(e: Equity, it: Item): Equity {
    var eq := e.eq + it.r * it.mult;
    Equity(eq, if e.peak >= eq then e.peak else eq)
  }

  function FilterSim(thresh: real, half: real): Sim<Equity> {
    Sim(Equity(0.0, 0.0), SettleEquity, (e: Equity, day: int) => if e.peak - e.eq > thresh then half else 1.0)
  }

  /** The filter's tuples carry neither day nor outcome, and none is needed to tell two of them apart. */
  function Bare(trades: seq<Trade>): (r: seq<Trade>)
    requires ValidTrades(trades)
    ensures |r| == |trades| && ValidTrades(r)
    ensures forall k :: 0 <= k < |r| ==> r[k] == trades[k].(day := 0, res := B)
  {
    var r := seq(|trades|, k requires 0 <= k < |trades| => trades[k].(day := 0, res := B));
    assert forall k :: 0 <= k < |trades| ==> trades[k] in trades;
    r
  }

  /** `sim_eq_filter`: risk is reduced exactly while the equity of the trades closed by then is too far below its peak. */
  method SimEqFilter(ent: seq<Trade>, thresh: real, half: real)
    returns (taken: seq<real>, total: real, maxDd: Option<real>, ghost popped: seq<Item>)
    requires ValidTrades(ent)
    ensures total == Cumulated(taken, |taken|)
    ensures maxDd == if taken == [] then None else Some(MaxDd(taken, |taken|))
    ensures taken == Taken(Bare(ent), FilterSim(thresh, half), |ent|)
    ensures popped == PoppedBefore(Bare(ent), FilterSim(thresh, half), |ent|)
    ensures InCloseOrder(popped) && multiset(popped) <= multiset(Entered(Bare(ent), FilterSim(thresh, half), |ent|))
  {
    hide AtEntry, Drained, Offline, HeapPush, SettleAll, FilterSim, Taken, Skips, Entered, MultAt, PoppedBefore,
         DistinctIndices, InCloseOrder, ItemOf, Contribution, ValidTrades, CloseOrder, Due, Cumulated, MaxDd;
    var trades := Bare(ent);
    ghost var sim := FilterSim(thresh, half);
    FilterDecides(thresh, half);
    var pending: seq<Item> := [];
    var equity := Equity(0.0, 0.0);
    taken, popped := [], [];
    FirstEntry(trades, sim);
    for i := 0 to |trades|
      invariant taken == Taken(trades, sim, i)
      invariant AtEntry(trades, sim, i, popped, pending, equity)
    {
      ghost var items := Entered(trades, sim, i);
      EntriesAreDistinct(trades, sim, i);
      Draw(trades, sim, i, popped, pending, equity);
      pending, equity, popped := Drain(trades, FilterSim(thresh, half), i, pending, equity, items, popped);
      var mult := if equity.peak - equity.eq > thresh then half else 1.0;
      NextEntry(trades, sim, i, popped, pending, equity);
      pending := HeapPush(pending, ItemOf(trades[i], mult, i));
      taken := taken + [Contribution(trades[i], mult)];
    }
    LastEntry(trades, sim, popped, pending, equity);
    total := Cumulated(taken, |taken|);
    maxDd := if taken == [] then None else Some(MaxDd(taken, |taken|));
  }

  lemma FilterDecides(thresh: real, half: real)
    ensures FilterSim(thresh, half).start == Equity(0.0, 0.0)
    ensures forall e: Equity, day: int :: FilterSim(thresh, half).decide(e, day) == if e.peak - e.eq > thresh then half else 1.0
  {}

  function EquityAt(s: seq<Item>, k: nat): real
    requires k <= |s|
  {
    if k == 0 then 0.0 else EquityAt(s, k - 1) + s[k - 1].r * s[k - 1].mult
  }

  lemma FilterStep(thresh: real, half: real, s: seq<Item>, n: nat)
    requires 0 < n <= |s|
    ensures SettleAll(FilterSim(thresh, half), s[..n])
         == SettleEquity(SettleAll(FilterSim(thresh, half), s[..n - 1]), s[n - 1])
    ensures EquityAt(s, n) == EquityAt(s, n - 1) + s[n - 1].r * s[n - 1].mult
  {
    assert s[..n] == s[..n - 1] + [s[n - 1]];
    SettleNext(FilterSim(thresh, half), s[..n - 1], s[n - 1]);
  }

  lemma FilterStart(thresh: real, half: real, s: seq<Item>)
    ensures SettleAll(FilterSim(thresh, half), s[..0]) == Equity(0.0, 0.0) && EquityAt(s, 0) == 0.0
  {
    NothingDrained([], FilterSim(thresh, half));
  }

  /** What the filter compares: the equity of the settled trades, and its best value since the start. */
  lemma {:induction false} FilterSeesDrawdown(thresh: real, half: real, s: seq<Item>, n: nat)
    requires n <= |s|
    ensures var e := SettleAll(FilterSim(thresh, half), s[..n]);
            && e.eq == EquityAt(s, n)
            && (forall k :: 0 <= k <= n ==> EquityAt(s, k) <= e.peak)
            && (exists k :: 0 <= k <= n && EquityAt(s, k) == e.peak)
  {
    hide SettleAll, FilterSim, EquityAt;
    if n == 0 {
      FilterStart(thresh, half, s);
      assert EquityAt(s, 0) == SettleAll(FilterSim(thresh, half), s[..0]).peak;
    } else {
      FilterSeesDrawdown(thresh, half, s, n - 1);
      FilterStep(thresh, half, s, n);
      var before, after := SettleAll(FilterSim(thresh, half), s[..n - 1]), SettleAll(FilterSim(thresh, half), s[..n]);
      var k :| 0 <= k <= n - 1 && EquityAt(s, k) == before.peak;
      assert EquityAt(s, if before.peak >= after.eq then k else n) == after.peak;
    }
  }

  lemma FilterDecidesOn(trades: seq<Trade>, thresh: real, half: real, i: nat)
    requires i < |trades|
    ensures var e := SettleAll(FilterSim(thresh, half), ClosedBefore(trades, FilterSim(thresh, half), i));
            MultAt(trades, FilterSim(thresh, half), i) == if e.peak - e.eq > thresh then half else 1.0
  {
    hide SettleAll, CloseOrder, Due, Entered, FilterSim;
    FilterDecides(thresh, half);
  }

  /** How far the equity after all of `s` lies below its value after the first `k`. */
  function Fallen(s: seq<Item>, k: nat): real
    requires k <= |s|
  {
    EquityAt(s, k) - EquityAt(s, |s|)
  }

  lemma FilterSeesFall(thresh: real, half: real, s: seq<Item>, k: nat)
    requires k <= |s| && forall j :: 0 <= j <= |s| ==> EquityAt(s, j) <= EquityAt(s, k)
    ensures var e := SettleAll(FilterSim(thresh, half), s); e.peak - e.eq == Fallen(s, k)
  {
    hide SettleAll, EquityAt, FilterSim;
    FilterSeesDrawdown(thresh, half, s, |s|);
    assert s[..|s|] == s;
  }

  /** What decides entry `i` under the filter: how far the equity of the closed trades is below its best value so far. */
  lemma FilterSees(trades: seq<Trade>, thresh: real, half: real, i: nat, k: nat)
    requires i < |trades| && k <= |ClosedBefore(trades, FilterSim(thresh, half), i)|
    requires var closed := ClosedBefore(trades, FilterSim(thresh, half), i);
             forall j :: 0 <= j <= |closed| ==> EquityAt(closed, j) <= EquityAt(closed, k)
    ensures var closed := ClosedBefore(trades, FilterSim(thresh, half), i);
            var mult := if Fallen(closed, k) > thresh then half else 1.0;
            && MultAt(trades, FilterSim(thresh, half), i) == mult
            && Taken(trades, FilterSim(thresh, half), i + 1) == Taken(trades, FilterSim(thresh, half), i) + [Contribution(trades[i], mult)]
            && Contribution(trades[i], mult) == trades[i].r * mult
  {
    hide SettleAll, MultAt, ClosedBefore, EquityAt, FilterSim, Taken, Contribution, Fallen;
    FilterDecidesOn(trades, thresh, half, i);
    FilterSeesFall(thresh, half, ClosedBefore(trades, FilterSim(thresh, half), i), k);
    OneMore(trades, FilterSim(thresh, half), i);
    ContributionIsProduct(trades[i], MultAt(trades, FilterSim(thresh, half), i));
  }

  // ----- The drawdown of the contributions -----

  function Cumulated(rs: seq<real>, k: nat): real
    requires k <= |rs|
  {
    if k == 0 then 0.0 else Cumulated(rs, k - 1) + rs[k - 1]
  }

  /** The highest total after at least one trade. */
  function HighWater(rs: seq<real>, k: nat): real
    requires 0 < k <= |rs|
  {
    if k == 1 then Cumulated(rs, 1)
    else if HighWater(rs, k - 1) >= Cumulated(rs, k) then HighWater(rs, k - 1) else Cumulated(rs, k)
  }

  /** `_max_dd` of the first `k` contributions: the least total relative to the running peak. */
  function MaxDd(rs: seq<real>, k: nat): real
    requires 0 < k <= |rs|
  {
    var here := Cumulated(rs, k) - HighWater(rs, k);
    if k == 1 || here <= MaxDd(rs, k - 1) then here else MaxDd(rs, k - 1)
  }

  lemma MaxDdStep(rs: seq<real>, n: nat)
    requires 0 < n <= |rs|
    ensures var here := Cumulated(rs, n) - HighWater(rs, n);
            MaxDd(rs, n) == if n == 1 || here <= MaxDd(rs, n - 1) then here else MaxDd(rs, n - 1)
  {}

  /** It is the deepest fall between two totals that both follow a trade; the start is not one of them. */
  lemma {:induction false} MaxDdIsWorstPair(rs: seq<real>, n: nat)
    requires 0 < n <= |rs|
    ensures forall i, j :: 1 <= i <= j <= n ==> MaxDd(rs, n) <= Cumulated(rs, j) - Cumulated(rs, i)
    ensures exists i, j :: 1 <= i <= j <= n && MaxDd(rs, n) == Cumulated(rs, j) - Cumulated(rs, i)
  {
    hide Cumulated, HighWater, MaxDd;
    HighWaterIsHighest(rs, n);
    MaxDdStep(rs, n);
    var top: nat :| 1 <= top <= n && Cumulated(rs, top) == HighWater(rs, n);
    var here := Cumulated(rs, n) - HighWater(rs, n);
    if n == 1 {
      assert MaxDd(rs, n) == Cumulated(rs, n) - Cumulated(rs, top);
    } else {
      MaxDdIsWorstPair(rs, n - 1);
      if here <= MaxDd(rs, n - 1) {
        assert MaxDd(rs, n) == Cumulated(rs, n) - Cumulated(rs, top);
      } else {
        var i, j :| 1 <= i <= j <= n - 1 && MaxDd(rs, n - 1) == Cumulated(rs, j) - Cumulated(rs, i);
        assert MaxDd(rs, n) == Cumulated(rs, j) - Cumulated(rs, i);
      }
    }
  }

  lemma {:induction false} HighWaterIsHighest(rs: seq<real>, k: nat)
    requires 0 < k <= |rs|
    ensures forall i :: 1 <= i <= k ==> Cumulated(rs, i) <= HighWater(rs, k)
    ensures exists i :: 1 <= i <= k && Cumulated(rs, i) == HighWater(rs, k)
  {
    hide Cumulated;
    if k > 1 {
      HighWaterIsHighest(rs, k - 1);
    }
    assert Cumulated(rs, k) <= HighWater(rs, k);
  }

  // ----- The reported figures -----

  /** The empty series has no drawdown and no worst day or month: the source's array minimum fails on it. */
  datatype Summary = Summary(total: real, maxDd: Option<real>, worstDay: Option<real>, worstMonth: Option<real>)

  /** Numbers the calendar months; later times are not in earlier months. */
  ghost predicate Calendar(monthOf: int -> int) {
    forall a, b :: a <= b ==> monthOf(a) <= monthOf(b)
  }

  /** What the first `n` trades contribute on one entry day. */
  function DayTotal(trades: seq<Trade>, taken: seq<real>, day: int, n: nat): real
    requires n <= |trades| == |taken|
  {
    if n == 0 then 0.0
    else DayTotal(trades, taken, day, n - 1) + if trades[n - 1].day == day then taken[n - 1] else 0.0
  }

  function WorstDay(trades: seq<Trade>, taken: seq<real>, n: nat): real
    requires 0 < n <= |trades| == |taken|
  {
    var here := DayTotal(trades, taken, trades[n - 1].day, |trades|);
    if n == 1 || here <= WorstDay(trades, taken, n - 1) then here else WorstDay(trades, taken, n - 1)
  }

  function MonthTotal(trades: seq<Trade>, taken: seq<real>, monthOf: int -> int, month: int, n: nat): real
    requires n <= |trades| == |taken|
  {
    if n == 0 then 0.0
    else MonthTotal(trades, taken, monthOf, month, n - 1) + if monthOf(trades[n - 1].entry) == month then taken[n - 1] else 0.0
  }

  /** The least month total from one month to another; a month without entries totals zero. */
  function WorstMonth(trades: seq<Trade>, taken: seq<real>, monthOf: int -> int, lo: int, hi: int): real
    requires |trades| == |taken|
    decreases hi - lo
  {
    var here := MonthTotal(trades, taken, monthOf, hi, |trades|);
    if hi <= lo || here <= WorstMonth(trades, taken, monthOf, lo, hi - 1) then here
    else WorstMonth(trades, taken, monthOf, lo, hi - 1)
  }

  function SummaryOf(trades: seq<Trade>, taken: seq<real>, monthOf: int -> int): Summary
    requires |trades| == |taken|
  {
    var n := |taken|;
    if n == 0 then Summary(0.0, None, None, None)
    else
      var lo, hi := monthOf(trades[0].entry), monthOf(trades[n - 1].entry);
      Summary(Cumulated(taken, n), Some(MaxDd(taken, n)), Some(WorstDay(trades, taken, n)),
              Some(WorstMonth(trades, taken, monthOf, lo, hi)))
  }

  /** The contributions of the trades entered on a day, zero elsewhere. */
  function OwnOfDay(trades: seq<Trade>, taken: seq<real>, day: int): seq<real>
    requires |trades| == |taken|
  {
    seq(|taken|, k requires 0 <= k < |taken| => if trades[k].day == day then taken[k] else 0.0)
  }

  function OwnOfMonth(trades: seq<Trade>, taken: seq<real>, monthOf: int -> int, month: int): seq<real>
    requires |trades| == |taken|
  {
    seq(|taken|, k requires 0 <= k < |taken| => if monthOf(trades[k].entry) == month then taken[k] else 0.0)
  }

  /** A day's or a month's total is what the trades entered in it add to the whole. */
  lemma {:induction false} TotalsAreSums(trades: seq<Trade>, taken: seq<real>, monthOf: int -> int, day: int, month: int, n: nat)
    requires n <= |trades| == |taken|
    ensures DayTotal(trades, taken, day, n) == Cumulated(OwnOfDay(trades, taken, day), n)
    ensures MonthTotal(trades, taken, monthOf, month, n) == Cumulated(OwnOfMonth(trades, taken, monthOf, month), n)
  {
    if n > 0 {
      TotalsAreSums(trades, taken, monthOf, day, month, n - 1);
    }
  }

  lemma {:induction false} WorstOfMonths(trades: seq<Trade>, taken: seq<real>, monthOf: int -> int, lo: int, hi: int)
    requires |trades| == |taken| && lo <= hi
    ensures var worst := WorstMonth(trades, taken, monthOf, lo, hi);
            && (forall m :: lo <= m <= hi ==> worst <= MonthTotal(trades, taken, monthOf, m, |trades|))
            && (exists m :: lo <= m <= hi && worst == MonthTotal(trades, taken, monthOf, m, |trades|))
    decreases hi - lo
  {
    hide MonthTotal;
    var here := MonthTotal(trades, taken, monthOf, hi, |trades|);
    if lo < hi {
      WorstOfMonths(trades, taken, monthOf, lo, hi - 1);
    }
    assert WorstMonth(trades, taken, monthOf, lo, hi) <= here;
  }

  /** The worst month is the least total of a calendar month from the first entry's to the last entry's, empty months included. */
  lemma WorstMonthIsLeast(trades: seq<Trade>, taken: seq<real>, monthOf: int -> int)
    requires ValidTrades(trades) && |trades| == |taken| > 0 && Calendar(monthOf)
    ensures var lo, hi := monthOf(trades[0].entry), monthOf(trades[|trades| - 1].entry);
            var worst := SummaryOf(trades, taken, monthOf).worstMonth.value;
            && (forall m :: lo <= m <= hi ==> worst <= MonthTotal(trades, taken, monthOf, m, |trades|))
            && (exists m :: lo <= m <= hi && worst == MonthTotal(trades, taken, monthOf, m, |trades|))
  {
    hide MonthTotal, WorstMonth, Cumulated, MaxDd, WorstDay;
    WorstOfMonths(trades, taken, monthOf, monthOf(trades[0].entry), monthOf(trades[|trades| - 1].entry));
  }

  /** It is the least total of a day on which a trade was entered. */
  lemma {:induction false} WorstDayIsLeast(trades: seq<Trade>, taken: seq<real>, n: nat)
    requires 0 < n <= |trades| == |taken|
    ensures forall k :: 0 <= k < n ==> WorstDay(trades, taken, n) <= DayTotal(trades, taken, trades[k].day, |trades|)
    ensures exists k :: 0 <= k < n && WorstDay(trades, taken, n) == DayTotal(trades, taken, trades[k].day, |trades|)
  {
    hide DayTotal;
    if n > 1 {
      WorstDayIsLeast(trades, taken, n - 1);
    }
    assert WorstDay(trades, taken, n) <= DayTotal(trades, taken, trades[n - 1].day, |trades|);
  }

  lemma DrainedPops(trades: seq<Trade>, items: seq<Item>, popped: seq<Item>, pending: seq<Item>, i: nat)
    requires i <= |trades| && Drained(trades, items, popped, pending, i)
    ensures InCloseOrder(popped) && multiset(popped) <= multiset(items)
  {
  }

  lemma NothingDrained<A>(trades: seq<Trade>, sim: Sim<A>)
    ensures Drained(trades, [], [], [], 0) && SettleAll(sim, []) == sim.start
  {
  }
}
