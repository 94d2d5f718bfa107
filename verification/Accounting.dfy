/**
 The account simulation of src/app/backtesting/backtest.py: balances after each
 closed trade, running-peak drawdown, and the two limits that end an account.
 */
module Accounting {
  import opened Domain

  datatype Account = Account(
    start: real, riskPercent: real, fixedRisk: bool,
    maxTrailingDd: Option<real>, maxTotalLoss: Option<real>)

  datatype TradeAccounting = TradeAccounting(
    riskAmount: real, pnl: real, balanceAfter: real, peakAfter: real, drawdown: real, drawdownPct: real)

  datatype Row = Row(balanceBefore: real, acct: TradeAccounting, blown: bool)

  datatype Reason = TrailingDrawdown | TotalLoss
  datatype Kill = Kill(reason: Reason, index: nat, balance: real, floor: real, peak: real)

  datatype Summary = Summary(
    finalBalance: real, netPnl: real, netPnlPct: real, maxDrawdown: real, maxDrawdownPct: real,
    grossProfit: real, grossLoss: real, profitFactor: Option<real>,
    averages: Averages, bestPnl: real, worstPnl: real, blown: Option<Kill>)

  datatype Averages = Averages(pnl: real, win: real, loss: real)

  function Larger(a: real, b: real): real {
    if a >= b then a else b
  }

  function DrawdownPct(peak: real, after: real): real {
    if peak > 0.0 then (peak - after) / peak * 100.0 else 0.0
  }

  function CalculateTradeAccounting(
    before: real, resultR: real, riskPercent: real, peakBefore: real, basis: Option<real>): (t: TradeAccounting)
  {
    var riskAmount := (if basis.Some? then basis.value else before) * (riskPercent / 100.0);
    var after := before + resultR * riskAmount;
    var peak := Larger(peakBefore, after);
    TradeAccounting(riskAmount, resultR * riskAmount, after, peak, peak - after, DrawdownPct(peak, after))
  }

  // ----- Balances in closed form -----

  function Total(rs: seq<real>, k: nat): real
    requires k <= |rs|
  {
    if k == 0 then 0.0 else Total(rs, k - 1) + rs[k - 1]
  }

  function Growth(rate: real, rs: seq<real>, k: nat): real
    requires k <= |rs|
  {
    if k == 0 then 1.0 else Growth(rate, rs, k - 1) * (1.0 + rate * rs[k - 1])
  }

  /** The balance after `k` trades if no limit ended the account: linear in the total R at fixed risk, a product otherwise. */
  function Balance(a: Account, rs: seq<real>, k: nat): real
    requires k <= |rs|
  {
    var rate := a.riskPercent / 100.0;
    if a.fixedRisk then a.start + a.start * rate * Total(rs, k) else a.start * Growth(rate, rs, k)
  }

  function Basis(a: Account): Option<real> {
    if a.fixedRisk then Some(a.start) else None
  }

  function Peak(a: Account, rs: seq<real>, k: nat): real
    requires k <= |rs|
  {
    if k == 0 then a.start else Larger(Peak(a, rs, k - 1), Balance(a, rs, k))
  }

  function TradeAt(a: Account, rs: seq<real>, k: nat): TradeAccounting
    requires k < |rs|
  {
    CalculateTradeAccounting(Balance(a, rs, k), rs[k], a.riskPercent, Peak(a, rs, k), Basis(a))
  }

  lemma Grow(start: real, growth: real, rate: real, r: real)
    ensures start * (growth * (1.0 + rate * r)) == start * growth + r * (start * growth * rate)
  {
    calc {
      start * (growth * (1.0 + rate * r));
      start * growth * (1.0 + rate * r);
      start * growth + start * growth * (rate * r);
    }
    assert start * growth * (rate * r) == r * (start * growth * rate);
  }

  /** One trade carries the closed forms one step. */
  lemma TradeMovesBalance(a: Account, rs: seq<real>, k: nat)
    requires k < |rs|
    ensures TradeAt(a, rs, k).balanceAfter == Balance(a, rs, k + 1)
    ensures TradeAt(a, rs, k).peakAfter == Peak(a, rs, k + 1)
    ensures TradeAt(a, rs, k).drawdown == Peak(a, rs, k + 1) - Balance(a, rs, k + 1)
  {
    hide DrawdownPct;
    var rate := a.riskPercent / 100.0;
    if a.fixedRisk {
      AddRisk(a.start * rate, Total(rs, k), rs[k]);
    } else {
      Grow(a.start, Growth(rate, rs, k), rate, rs[k]);
    }
  }

  lemma AddRisk(risk: real, total: real, r: real)
    ensures risk * (total + r) == risk * total + r * risk
  {}

  // ----- Limits -----

  function Floor(top: real, limit: real): real {
    top * (1.0 - limit / 100.0)
  }

  /** A balance below a floor set `limit` percent under `top`. */
  predicate Under(balance: real, top: real, limit: Option<real>) {
    limit.Some? && balance < Floor(top, limit.value)
  }

  predicate Blown(a: Account, rs: seq<real>, k: nat)
    requires k <= |rs|
  {
    Under(Balance(a, rs, k), Peak(a, rs, k), a.maxTrailingDd) || Under(Balance(a, rs, k), a.start, a.maxTotalLoss)
  }

  /** The number of trades simulated when `k` are already done. */
  function Played(a: Account, rs: seq<real>, k: nat): nat
    requires k <= |rs|
    decreases |rs| - k
  {
    if k == |rs| then k
    else if Blown(a, rs, k + 1) then k + 1
    else Played(a, rs, k + 1)
  }

  /** The simulation ends exactly at the first trade that violates a limit. */
  lemma {:induction false} EndsAtFirstViolation(a: Account, rs: seq<real>, k: nat, n: nat)
    requires k <= n <= |rs|
    ensures n == Played(a, rs, k)
      <==> && (forall j :: k < j < n ==> !Blown(a, rs, j))
           && (n < |rs| ==> k < n && Blown(a, rs, n))
    decreases n - k
  {
    hide Blown;
    PlayedBounds(a, rs, k);
    if k < n && !Blown(a, rs, k + 1) {
      EndsAtFirstViolation(a, rs, k + 1, n);
    }
  }

  lemma PlayedBounds(a: Account, rs: seq<real>, k: nat)
    requires k <= |rs|
    ensures k <= Played(a, rs, k) <= |rs|
    ensures k < |rs| ==> k < Played(a, rs, k)
    decreases |rs| - k
  {
  }

  function LossPct(balance: real, top: real): real
    requires top > 0.0
  {
    (top - balance) / top * 100.0
  }

  lemma Scale(x: real, y: real, top: real)
    requires top > 0.0
    ensures x / top < y <==> x < y * top
  {
    var q := x / top;
    assert q * top == x;
    if q < y { assert (y - q) * top > 0.0; }
    if q >= y { assert (q - y) * top >= 0.0; }
  }

  /** A floor is broken exactly when the loss in percent exceeds the limit. */
  lemma UnderIsLoss(balance: real, top: real, m: real)
    requires top > 0.0
    ensures Under(balance, top, Some(m)) <==> LossPct(balance, top) > m
  {
    Scale(balance - top, -m / 100.0, top);
    assert -m / 100.0 * top == top * (1.0 - m / 100.0) - top;
    assert (top - balance) / top == -((balance - top) / top);
  }

  lemma {:induction false} PeakIsHighest(a: Account, rs: seq<real>, k: nat)
    requires k <= |rs|
    ensures forall j :: 0 <= j <= k ==> Balance(a, rs, j) <= Peak(a, rs, k)
    ensures exists j :: 0 <= j <= k && Balance(a, rs, j) == Peak(a, rs, k)
    ensures a.start <= Peak(a, rs, k)
  {
    assert Balance(a, rs, 0) == a.start;
    hide Balance;
    if k > 0 {
      PeakIsHighest(a, rs, k - 1);
      assert Balance(a, rs, k) <= Peak(a, rs, k);
    }
  }

  /** Every trade before the last is within both limits, in percent of its peak and of the start. */
  lemma EarlierTradesWithinLimits(a: Account, rs: seq<real>, k: nat)
    requires a.start > 0.0 && 0 < k < Played(a, rs, 0)
    ensures k <= |rs| && Peak(a, rs, k) > 0.0
    ensures a.maxTrailingDd.Some? ==> LossPct(Balance(a, rs, k), Peak(a, rs, k)) <= a.maxTrailingDd.value
    ensures a.maxTotalLoss.Some? ==> LossPct(Balance(a, rs, k), a.start) <= a.maxTotalLoss.value
  {
    hide Balance, LossPct;
    PlayedBounds(a, rs, 0);
    EndsAtFirstViolation(a, rs, 0, Played(a, rs, 0));
    PeakIsHighest(a, rs, k);
    assert !Blown(a, rs, k);
    if a.maxTrailingDd.Some? { UnderIsLoss(Balance(a, rs, k), Peak(a, rs, k), a.maxTrailingDd.value); }
    if a.maxTotalLoss.Some? { UnderIsLoss(Balance(a, rs, k), a.start, a.maxTotalLoss.value); }
  }

  predicate Tighter(tight: Option<real>, loose: Option<real>) {
    loose.Some? ==> tight.Some? && tight.value <= loose.value
  }

  lemma UnderTighter(balance: real, top: real, tight: Option<real>, loose: Option<real>)
    requires top > 0.0 && Tighter(tight, loose) && Under(balance, top, loose)
    ensures Under(balance, top, tight)
  {
    UnderIsLoss(balance, top, tight.value);
    UnderIsLoss(balance, top, loose.value);
  }

  /** Tightening a limit yields a prefix of the looser run. */
  lemma {:induction false} TighterIsPrefix(tight: Account, loose: Account, rs: seq<real>, k: nat)
    requires k <= |rs| && loose.start > 0.0
    requires tight == loose.(maxTrailingDd := tight.maxTrailingDd, maxTotalLoss := tight.maxTotalLoss)
    requires Tighter(tight.maxTrailingDd, loose.maxTrailingDd) && Tighter(tight.maxTotalLoss, loose.maxTotalLoss)
    ensures Played(tight, rs, k) <= Played(loose, rs, k)
    ensures forall j :: 0 <= j < |rs| ==> TradeAt(tight, rs, j) == TradeAt(loose, rs, j)
    decreases |rs| - k
  {
    PlayedBounds(loose, rs, k);
    hide Balance, Peak, Under, CalculateTradeAccounting, LossPct;
    forall j | 0 <= j < |rs| ensures TradeAt(tight, rs, j) == TradeAt(loose, rs, j) {
      SamePeak(tight, loose, rs, j);
    }
    if k < |rs| {
      SamePeak(tight, loose, rs, k + 1);
      PeakIsHighest(loose, rs, k + 1);
      if Under(Balance(loose, rs, k + 1), Peak(loose, rs, k + 1), loose.maxTrailingDd) {
        UnderTighter(Balance(loose, rs, k + 1), Peak(loose, rs, k + 1), tight.maxTrailingDd, loose.maxTrailingDd);
      }
      if Under(Balance(loose, rs, k + 1), loose.start, loose.maxTotalLoss) {
        UnderTighter(Balance(loose, rs, k + 1), loose.start, tight.maxTotalLoss, loose.maxTotalLoss);
      }
      TighterIsPrefix(tight, loose, rs, k + 1);
    }
  }

  lemma SameBalance(a: Account, b: Account, rs: seq<real>, k: nat)
    requires k <= |rs| && b == a.(maxTrailingDd := b.maxTrailingDd, maxTotalLoss := b.maxTotalLoss)
    ensures Balance(a, rs, k) == Balance(b, rs, k)
  {
  }

  lemma SamePeak(a: Account, b: Account, rs: seq<real>, k: nat)
    requires k <= |rs| && b == a.(maxTrailingDd := b.maxTrailingDd, maxTotalLoss := b.maxTotalLoss)
    ensures Balance(a, rs, k) == Balance(b, rs, k) && Peak(a, rs, k) == Peak(b, rs, k)
  {
    assert Balance(a, rs, 0) == Balance(b, rs, 0) by { SameBalance(a, b, rs, 0); }
    SameBalance(a, b, rs, k);
    hide Balance;
    if k > 0 { SamePeak(a, b, rs, k - 1); }
  }

  // ----- Drawdown -----

  /** The largest drop below the running peak in the first `n` trades. */
  function WorstDrop(a: Account, rs: seq<real>, n: nat): real
    requires n <= |rs|
  {
    if n == 0 then 0.0 else Larger(WorstDrop(a, rs, n - 1), Peak(a, rs, n) - Balance(a, rs, n))
  }

  /** The running-peak drawdown is the largest fall from any balance to any later one. */
  lemma {:induction false} WorstDropIsWorstPair(a: Account, rs: seq<real>, n: nat)
    requires n <= |rs|
    ensures forall i, j :: 0 <= i <= j <= n ==> Balance(a, rs, i) - Balance(a, rs, j) <= WorstDrop(a, rs, n)
    ensures exists i, j :: 0 <= i <= j <= n && Balance(a, rs, i) - Balance(a, rs, j) == WorstDrop(a, rs, n)
  {
    hide Balance;
    if n == 0 {
      assert Balance(a, rs, 0) - Balance(a, rs, 0) == WorstDrop(a, rs, 0);
    } else {
      WorstDropIsWorstPair(a, rs, n - 1);
      PeakIsHighest(a, rs, n);
      var top :| 0 <= top <= n && Balance(a, rs, top) == Peak(a, rs, n);
      assert WorstDrop(a, rs, n) == Peak(a, rs, n) - Balance(a, rs, n)
         ==> Balance(a, rs, top) - Balance(a, rs, n) == WorstDrop(a, rs, n);
    }
  }

  function WorstDropPct(a: Account, rs: seq<real>, n: nat): real
    requires n <= |rs|
  {
    if n == 0 then 0.0 else Larger(WorstDropPct(a, rs, n - 1), TradeAt(a, rs, n - 1).drawdownPct)
  }

  /**
   In percent: no fall from a positive balance to one still at or above zero is worse, and
   some fall is exactly as bad. Below zero a lower top loses a larger share, so the peak is no longer the worst one.
   */
  lemma {:induction false} WorstDropPctIsWorstPair(a: Account, rs: seq<real>, n: nat)
    requires n <= |rs| && a.start > 0.0
    ensures forall i, j :: 0 <= i <= j <= n && Balance(a, rs, i) > 0.0 && Balance(a, rs, j) >= 0.0
              ==> LossPct(Balance(a, rs, j), Balance(a, rs, i)) <= WorstDropPct(a, rs, n)
    ensures exists i, j :: 0 <= i <= j <= n && Balance(a, rs, i) > 0.0
              && LossPct(Balance(a, rs, j), Balance(a, rs, i)) == WorstDropPct(a, rs, n)
  {
    assert Balance(a, rs, 0) == a.start;
    hide Balance;
    if n == 0 {
      assert LossPct(Balance(a, rs, 0), Balance(a, rs, 0)) == 0.0;
    } else {
      WorstDropPctIsWorstPair(a, rs, n - 1);
      PeakIsHighest(a, rs, n);
      TradeMovesBalance(a, rs, n - 1);
      var b, p := Balance(a, rs, n), Peak(a, rs, n);
      assert TradeAt(a, rs, n - 1).drawdownPct == LossPct(b, p);
      forall i | 0 <= i <= n && Balance(a, rs, i) > 0.0 && b >= 0.0
        ensures LossPct(b, Balance(a, rs, i)) <= LossPct(b, p)
      {
        HigherTopLosesMore(b, Balance(a, rs, i), p);
      }
      var top :| 0 <= top <= n && Balance(a, rs, top) == p;
      assert WorstDropPct(a, rs, n) == LossPct(b, p) ==> LossPct(b, Balance(a, rs, top)) == WorstDropPct(a, rs, n);
    }
  }

  lemma HigherTopLosesMore(b: real, low: real, high: real)
    requires b >= 0.0 && 0.0 < low <= high
    ensures LossPct(b, low) <= LossPct(b, high)
  {
    var x, y := (low - b) / low, (high - b) / high;
    assert x * low == low - b && y * high == high - b;
    var u, v := 1.0 - x, 1.0 - y;
    assert u * low == b && v * high == b;
    assert v > u ==> v > 0.0 && (v - u) * low > 0.0;
    assert v > 0.0 ==> v * (high - low) >= 0.0;
  }

  // ----- Gross profit and loss -----

  function Gains(pnls: seq<real>): real {
    if pnls == [] then 0.0 else Gains(pnls[..|pnls| - 1]) + Larger(pnls[|pnls| - 1], 0.0)
  }

  /** The sum of the losing trades; not positive. */
  function Losses(pnls: seq<real>): (r: real)
    ensures r <= 0.0
  {
    if pnls == [] then 0.0 else Losses(pnls[..|pnls| - 1]) + (if pnls[|pnls| - 1] < 0.0 then pnls[|pnls| - 1] else 0.0)
  }

  function Sum(pnls: seq<real>): real {
    if pnls == [] then 0.0 else Sum(pnls[..|pnls| - 1]) + pnls[|pnls| - 1]
  }

  lemma {:induction false} SumIsGainsAndLosses(pnls: seq<real>)
    ensures Sum(pnls) == Gains(pnls) + Losses(pnls)
  {
    if pnls != [] { SumIsGainsAndLosses(pnls[..|pnls| - 1]); }
  }

  function Wins(pnls: seq<real>): nat {
    if pnls == [] then 0 else Wins(pnls[..|pnls| - 1]) + if pnls[|pnls| - 1] > 0.0 then 1 else 0
  }

  function LosingTrades(pnls: seq<real>): nat {
    if pnls == [] then 0 else LosingTrades(pnls[..|pnls| - 1]) + if pnls[|pnls| - 1] < 0.0 then 1 else 0
  }

  /** The winning trades, or the losing ones, in order; a trade at zero is neither. */
  function Decided(pnls: seq<real>, won: bool): (r: seq<real>)
    ensures forall x :: multiset(r)[x] == if (if won then x > 0.0 else x < 0.0) then multiset(pnls)[x] else 0
  {
    if pnls == [] then []
    else
      var m := |pnls| - 1;
      assert pnls == pnls[..m] + [pnls[m]];
      Decided(pnls[..m], won) + if (if won then pnls[m] > 0.0 else pnls[m] < 0.0) then [pnls[m]] else []
  }

  /** The gross figures are the sums over the winning and the losing trades, and the counts their numbers. */
  lemma {:induction false} GrossesAreSums(pnls: seq<real>)
    ensures Gains(pnls) == Sum(Decided(pnls, true)) && Losses(pnls) == Sum(Decided(pnls, false))
    ensures Wins(pnls) == |Decided(pnls, true)| && LosingTrades(pnls) == |Decided(pnls, false)|
  {
    if pnls != [] {
      var m := |pnls| - 1;
      GrossesAreSums(pnls[..m]);
      SumMore(Decided(pnls[..m], true), pnls[m]);
      SumMore(Decided(pnls[..m], false), pnls[m]);
      assert Decided(pnls[..m], true) + [] == Decided(pnls[..m], true);
      assert Decided(pnls[..m], false) + [] == Decided(pnls[..m], false);
    }
  }

  lemma SumMore(xs: seq<real>, x: real)
    ensures Sum(xs + [x]) == Sum(xs) + x
  {
    assert (xs + [x])[..|xs|] == xs;
  }

  function BestPnl(pnls: seq<real>): (b: real)
    requires pnls != []
    ensures b in pnls && forall x <- pnls :: x <= b
  {
    var m := |pnls| - 1;
    assert pnls == pnls[..m] + [pnls[m]];
    if m == 0 || pnls[m] >= BestPnl(pnls[..m]) then pnls[m] else BestPnl(pnls[..m])
  }

  function WorstPnl(pnls: seq<real>): (w: real)
    requires pnls != []
    ensures w in pnls && forall x <- pnls :: w <= x
  {
    var m := |pnls| - 1;
    assert pnls == pnls[..m] + [pnls[m]];
    if m == 0 || pnls[m] <= WorstPnl(pnls[..m]) then pnls[m] else WorstPnl(pnls[..m])
  }

  function Ratio(total: real, count: nat): real {
    if count == 0 then 0.0 else total / count as real
  }

  function PnlsOf(a: Account, rs: seq<real>, n: nat): seq<real>
    requires n <= |rs|
  {
    if n == 0 then [] else PnlsOf(a, rs, n - 1) + [TradeAt(a, rs, n - 1).pnl]
  }

  /** What was won less what was lost is the change of the balance. */
  lemma {:induction false} GrossesBalance(a: Account, rs: seq<real>, n: nat)
    requires n <= |rs|
    ensures Gains(PnlsOf(a, rs, n)) + Losses(PnlsOf(a, rs, n)) == Balance(a, rs, n) - a.start
  {
    if n > 0 {
      GrossesBalance(a, rs, n - 1);
      TradeMovesBalance(a, rs, n - 1);
      hide Balance;
      assert PnlsOf(a, rs, n)[..|PnlsOf(a, rs, n)| - 1] == PnlsOf(a, rs, n - 1);
    }
  }

  // ----- The simulation -----

  /** The trailing limit is checked first. */
  function KillOf(a: Account, balance: real, peak: real, index: nat): Option<Kill> {
    if Under(balance, peak, a.maxTrailingDd) then
      Some(Kill(TrailingDrawdown, index, balance, Floor(peak, a.maxTrailingDd.value), peak))
    else if Under(balance, a.start, a.maxTotalLoss) then
      Some(Kill(TotalLoss, index, balance, Floor(a.start, a.maxTotalLoss.value), peak))
    else None
  }

  /** What ended the account with trade `k`, counted from one. */
  function KillAt(a: Account, rs: seq<real>, k: nat): (r: Option<Kill>)
    requires k <= |rs|
    ensures k > 0 ==> (r != None <==> Blown(a, rs, k))
  {
    if k == 0 then None else KillOf(a, Balance(a, rs, k), Peak(a, rs, k), k - 1)
  }

  /** The loss in percent of `top` is past the limit. */
  predicate Past(balance: real, top: real, limit: Option<real>)
    requires top > 0.0
  {
    limit.Some? && LossPct(balance, top) > limit.value
  }

  /** Trade `k` is the first whose balance is past one of the limits, in percent of its peak or of the start. */
  predicate FirstPast(a: Account, rs: seq<real>, k: nat)
    requires 0 < k <= |rs| && a.start > 0.0
  {
    && PastEither(a, rs, k)
    && forall j :: 0 < j < k ==> !PastEither(a, rs, j)
  }

  predicate PastEither(a: Account, rs: seq<real>, k: nat)
    requires k <= |rs| && a.start > 0.0
  {
    || Past(Balance(a, rs, k), a.start, a.maxTotalLoss)
    || (Peak(a, rs, k) > 0.0 && Past(Balance(a, rs, k), Peak(a, rs, k), a.maxTrailingDd))
  }

  lemma PastIff(a: Account, rs: seq<real>, k: nat)
    requires k <= |rs| && a.start > 0.0
    ensures Peak(a, rs, k) > 0.0
    ensures Blown(a, rs, k) <==> PastEither(a, rs, k)
    ensures Under(Balance(a, rs, k), Peak(a, rs, k), a.maxTrailingDd)
       <==> Past(Balance(a, rs, k), Peak(a, rs, k), a.maxTrailingDd)
  {
    hide Balance, Peak, Under, LossPct;
    PeakIsHighest(a, rs, k);
    UnderIffPast(Balance(a, rs, k), Peak(a, rs, k), a.maxTrailingDd);
    UnderIffPast(Balance(a, rs, k), a.start, a.maxTotalLoss);
  }

  lemma UnderIffPast(balance: real, top: real, limit: Option<real>)
    requires top > 0.0
    ensures Under(balance, top, limit) <==> Past(balance, top, limit)
  {
    hide LossPct;
    if limit.Some? { UnderIsLoss(balance, top, limit.value); }
  }

  lemma FloorIsLimit(top: real, m: real)
    requires top > 0.0
    ensures LossPct(Floor(top, m), top) == m
  {
    var x := top * (1.0 - m / 100.0);
    assert (top - x) == m / 100.0 * top;
    Quotient(m / 100.0, top);
  }

  lemma Quotient(x: real, top: real)
    requires top > 0.0
    ensures x * top / top == x
  {}

  /**
   What a run records as the end of the account: nothing if no trade is past a limit; else the first that is,
   with its balance and peak, the trailing drawdown whenever that limit is broken and the total loss otherwise,
   and the floor that lies exactly the limit below the peak or the start.
   */
  lemma EndIsExplained(a: Account, rs: seq<real>)
    requires a.start > 0.0
    ensures Played(a, rs, 0) <= |rs|
    ensures var end := KillAt(a, rs, Played(a, rs, 0));
            && (end.None? ==> Played(a, rs, 0) == |rs| && forall k :: 0 < k <= |rs| ==> !PastEither(a, rs, k))
            && (end.Some? ==>
                  var kill, n := end.value, end.value.index + 1;
                  && n == Played(a, rs, 0) && FirstPast(a, rs, n)
                  && kill.balance == Balance(a, rs, n) && kill.peak == Peak(a, rs, n) > 0.0
                  && (kill.reason == TrailingDrawdown <==> Past(kill.balance, kill.peak, a.maxTrailingDd))
                  && (match kill.reason
                      case TrailingDrawdown => a.maxTrailingDd == Some(LossPct(kill.floor, kill.peak))
                      case TotalLoss => a.maxTotalLoss == Some(LossPct(kill.floor, a.start))))
  {
    var n := Played(a, rs, 0);
    PlayedBounds(a, rs, 0);
    EndsAtFirstViolation(a, rs, 0, n);
    NeverEarlier(a, rs, n);
    PastIff(a, rs, n);
    if KillAt(a, rs, n).Some? {
      KillFields(a, rs, n);
    }
    if n > 0 {
      hide Balance, Peak, Under, LossPct, Floor, KillOf;
      assert KillAt(a, rs, n).None? ==> !Blown(a, rs, n);
    }
  }

  lemma NeverEarlier(a: Account, rs: seq<real>, n: nat)
    requires a.start > 0.0 && n <= |rs| && forall j :: 0 < j < n ==> !Blown(a, rs, j)
    ensures forall j :: 0 < j < n ==> !PastEither(a, rs, j)
  {
    hide Blown, PastEither;
    forall j | 0 < j < n ensures !PastEither(a, rs, j) {
      PastIff(a, rs, j);
    }
  }

  lemma KillFields(a: Account, rs: seq<real>, n: nat)
    requires a.start > 0.0 && 0 < n <= |rs| && KillAt(a, rs, n).Some? && Peak(a, rs, n) > 0.0
    ensures var kill := KillAt(a, rs, n).value;
            && kill.index == n - 1 && kill.balance == Balance(a, rs, n) && kill.peak == Peak(a, rs, n)
            && (kill.reason == TrailingDrawdown <==> Under(kill.balance, kill.peak, a.maxTrailingDd))
            && (match kill.reason
                case TrailingDrawdown => a.maxTrailingDd == Some(LossPct(kill.floor, kill.peak))
                case TotalLoss => a.maxTotalLoss == Some(LossPct(kill.floor, a.start)))
  {
    hide Balance, Peak, LossPct, Floor;
    if a.maxTrailingDd.Some? { FloorIsLimit(Peak(a, rs, n), a.maxTrailingDd.value); }
    if a.maxTotalLoss.Some? { FloorIsLimit(a.start, a.maxTotalLoss.value); }
  }

  /** A trade wins or loses its R times the percentage put at risk: of the start at fixed risk, else of the balance before it. */
  lemma TradeBooksItsRisk(a: Account, rs: seq<real>, k: nat)
    requires k < |rs|
    ensures var t := TradeAt(a, rs, k);
            && 100.0 * t.riskAmount == (if a.fixedRisk then a.start else Balance(a, rs, k)) * a.riskPercent
            && t.pnl == rs[k] * t.riskAmount
            && Balance(a, rs, k + 1) == Balance(a, rs, k) + t.pnl
  {
    TradeMovesBalance(a, rs, k);
    hide Balance;
  }

  function Pnls(rows: seq<Row>): seq<real> {
    if rows == [] then [] else Pnls(rows[..|rows| - 1]) + [rows[|rows| - 1].acct.pnl]
  }

  lemma {:induction false} PnlsOfRows(a: Account, rs: seq<real>, rows: seq<Row>)
    requires |rows| <= |rs| && forall k :: 0 <= k < |rows| ==> rows[k].acct == TradeAt(a, rs, k)
    ensures Pnls(rows) == PnlsOf(a, rs, |rows|)
  {
    hide TradeAt;
    if rows != [] {
      PnlsOfRows(a, rs, rows[..|rows| - 1]);
    }
  }

  lemma Untouched(a: Account, rs: seq<real>)
    ensures Balance(a, rs, 0) == Peak(a, rs, 0) == a.start
    ensures WorstDrop(a, rs, 0) == WorstDropPct(a, rs, 0) == 0.0
    ensures Basis(a) == if a.fixedRisk then Some(a.start) else None
  {}

  lemma TradeIsStep(a: Account, rs: seq<real>, k: nat)
    requires k < |rs|
    ensures var t := CalculateTradeAccounting(Balance(a, rs, k), rs[k], a.riskPercent, Peak(a, rs, k), Basis(a));
            && t == TradeAt(a, rs, k)
            && t.balanceAfter == Balance(a, rs, k + 1) && t.peakAfter == Peak(a, rs, k + 1)
            && Larger(WorstDrop(a, rs, k), t.drawdown) == WorstDrop(a, rs, k + 1)
            && Larger(WorstDropPct(a, rs, k), t.drawdownPct) == WorstDropPct(a, rs, k + 1)
            && KillOf(a, t.balanceAfter, t.peakAfter, k) == KillAt(a, rs, k + 1)
  {
    TradeMovesBalance(a, rs, k);
    hide CalculateTradeAccounting, Balance, Peak;
  }

  method CheckLimits(a: Account, acct: TradeAccounting, idx: nat) returns (blown: Option<Kill>)
    ensures blown == KillOf(a, acct.balanceAfter, acct.peakAfter, idx)
  {
    hide Floor;
    blown := None;
    if a.maxTrailingDd.Some? {
      var floor := Floor(acct.peakAfter, a.maxTrailingDd.value);
      if acct.balanceAfter < floor {
        blown := Some(Kill(TrailingDrawdown, idx, acct.balanceAfter, floor, acct.peakAfter));
      }
    }
    if blown == None && a.maxTotalLoss.Some? {
      var floor := Floor(a.start, a.maxTotalLoss.value);
      if acct.balanceAfter < floor {
        blown := Some(Kill(TotalLoss, idx, acct.balanceAfter, floor, acct.peakAfter));
      }
    }
  }

  /** The rows are those of an account without limits, up to the first violation. */
  ghost predicate RowsUpTo(a: Account, rs: seq<real>, rows: seq<Row>) {
    && |rows| <= |rs|
    && forall k :: 0 <= k < |rows| ==> rows[k] == Row(Balance(a, rs, k), TradeAt(a, rs, k), Blown(a, rs, k + 1))
  }

  /** The loop over closed trades, with its break. */
  method PlayTrades(a: Account, results: seq<real>)
    returns (rows: seq<Row>, balance: real, maxDd: real, maxDdPct: real, blown: Option<Kill>)
    ensures RowsUpTo(a, results, rows) && |rows| == Played(a, results, 0)
    ensures balance == Balance(a, results, |rows|)
    ensures maxDd == WorstDrop(a, results, |rows|) && maxDdPct == WorstDropPct(a, results, |rows|)
    ensures blown == KillAt(a, results, |rows|)
  {
    Untouched(a, results);
    hide CalculateTradeAccounting, TradeAt, Balance, Peak, WorstDrop, WorstDropPct, Basis, Blown, KillOf;
    var peak := a.start;
    rows, balance, maxDd, maxDdPct, blown := [], a.start, 0.0, 0.0, None;
    var fixedBasis := if a.fixedRisk then Some(a.start) else None;
    while |rows| < |results|
      invariant RowsUpTo(a, results, rows) && blown == KillAt(a, results, |rows|) == None
      invariant balance == Balance(a, results, |rows|) && peak == Peak(a, results, |rows|)
      invariant maxDd == WorstDrop(a, results, |rows|) && maxDdPct == WorstDropPct(a, results, |rows|)
      invariant Played(a, results, |rows|) == Played(a, results, 0)
      decreases |results| - |rows|
    {
      var idx := |rows|;
      var acct := CalculateTradeAccounting(balance, results[idx], a.riskPercent, peak, fixedBasis);
      TradeIsStep(a, results, idx);
      blown := CheckLimits(a, acct, idx);
      rows := rows + [Row(balance, acct, blown != None)];
      balance, peak := acct.balanceAfter, acct.peakAfter;
      maxDd, maxDdPct := Larger(maxDd, acct.drawdown), Larger(maxDdPct, acct.drawdownPct);
      if blown != None { break; }
    }
  }

  method ComputeAccounting(a: Account, results: seq<real>) returns (rows: seq<Row>, summary: Summary)
    ensures RowsUpTo(a, results, rows) && |rows| == Played(a, results, 0)
    ensures summary.finalBalance == Balance(a, results, |rows|)
    ensures summary.netPnl == summary.finalBalance - a.start == summary.grossProfit - summary.grossLoss
    ensures summary.netPnlPct == if a.start > 0.0 then summary.netPnl / a.start * 100.0 else 0.0
    ensures summary.profitFactor == if summary.grossLoss > 0.0 then Some(summary.grossProfit / summary.grossLoss) else None
    ensures var pnls := PnlsOf(a, results, |rows|);
            && summary.grossProfit == Gains(pnls) && summary.grossLoss == -Losses(pnls) >= 0.0
            && summary.averages == Averages(Ratio(summary.netPnl, |rows|), Ratio(summary.grossProfit, Wins(pnls)),
                                            Ratio(-summary.grossLoss, LosingTrades(pnls)))
            && summary.bestPnl == (if pnls == [] then 0.0 else BestPnl(pnls))
            && summary.worstPnl == (if pnls == [] then 0.0 else WorstPnl(pnls))
    ensures summary.maxDrawdown == WorstDrop(a, results, |rows|)
    ensures summary.maxDrawdownPct == WorstDropPct(a, results, |rows|)
    ensures summary.blown == KillAt(a, results, |rows|)
  {
    hide Balance, TradeAt, Played, WorstDrop, WorstDropPct, KillAt, Blown, PnlsOf, Pnls, Gains, Losses, Sum, Wins,
         LosingTrades, BestPnl, WorstPnl, Ratio;
    var balance, maxDd, maxDdPct, blown;
    rows, balance, maxDd, maxDdPct, blown := PlayTrades(a, results);
    var netPnl := balance - a.start;
    var pnls := Pnls(rows);
    var grossProfit, grossLoss := Gains(pnls), -Losses(pnls);
    PnlsOfRows(a, results, rows);
    GrossesBalance(a, results, |rows|);
    SumIsGainsAndLosses(pnls);
    var averages := Averages(Ratio(Sum(pnls), |rows|), Ratio(grossProfit, Wins(pnls)), Ratio(-grossLoss, LosingTrades(pnls)));
    summary := Summary(balance, netPnl, if a.start > 0.0 then netPnl / a.start * 100.0 else 0.0, maxDd, maxDdPct,
                       grossProfit, grossLoss, if grossLoss > 0.0 then Some(grossProfit / grossLoss) else None,
                       averages, if pnls == [] then 0.0 else BestPnl(pnls), if pnls == [] then 0.0 else WorstPnl(pnls), blown);
  }
}
