/**
 The bar that opens when a setup closes. The backtest simulates a trade from the bar after the
 last visible one (src/app/backtesting/backtest.py), while live updates and status queries replay
 only bars that open after the trigger (src/app/services/signal_service.py), which for a setup on the
 last visible bar is the close of that bar: they skip the bar that opens at that time.
 */
module EntryBar {
  import opened Domain
  import opened Lifecycle
  import opened FirstPassage
  import opened Giveback
  import opened Backtest
  import LookAhead
  import S = SignalService

  function ResultFrom(plan: Plan, prof: Profile, p: Progress, cs: seq<Candle>): BacktestResult {
    PlainRun(plan, prof, p, cs).result
  }

  /** An open trade with nothing booked; two of them in one status have the same result. */
  predicate Pristine(p: Progress) {
    Open(p.status) && p.outcome.None?
  }

  /** TP1 reached on the skipped bar makes no difference later: break-even off, or the bars reach TP1 again unharmed. */
  predicate ReachedAgain(plan: Plan, rest: seq<Candle>, prof: Profile) {
    var lapse := First(c => Lapsed(plan, prof, c), rest, 0);
    var entry := FirstStop(plan, plan.entry, rest, 0);
    var tp1 := FirstTouch(plan, plan.tp1, rest, 0);
    var harm := if lapse <= entry then lapse else entry;
    tp1 < harm || harm == |rest| || (entry == tp1 < lapse && TouchesTarget(plan.direction, rest[tp1], plan.tp2))
  }

  /** The first bar can be skipped without changing the result. */
  predicate Skippable(plan: Plan, prof: Profile, bars: seq<Candle>)
    requires bars != []
  {
    var v := Judge(plan, prof, TRIGGERED, bars[0]);
    v.Hold? || (v.FirstTarget? && (!prof.moveSlToBe || ReachedAgain(plan, bars[1..], prof)))
  }

  lemma {:induction false} HeldBarsSkip(plan: Plan, prof: Profile, p: Progress, cs: seq<Candle>, n: nat)
    requires n <= |cs| && forall k :: 0 <= k < n ==> Judge(plan, prof, p.status, cs[k]) == Hold
    ensures ResultFrom(plan, prof, p, cs) == ResultFrom(plan, prof, p, cs[n..])
    decreases n
  {
    if n > 0 {
      assert forall k :: 0 <= k < n - 1 ==> cs[1..][k] == cs[k + 1];
      HeldBarsSkip(plan, prof, p, cs[1..], n - 1);
      assert cs[1..][n - 1..] == cs[n..];
    } else {
      assert cs[0..] == cs;
    }
  }

  /** Two open trades give one result if they are in one status, or if the stop does not depend on it. */
  lemma {:induction false} SameResult(plan: Plan, prof: Profile, p: Progress, q: Progress, cs: seq<Candle>)
    requires OrderedLevels(plan) && Pristine(p) && Pristine(q) && (p.status == q.status || !prof.moveSlToBe)
    ensures ResultFrom(plan, prof, p, cs) == ResultFrom(plan, prof, q, cs)
    decreases |cs|
  {
    if cs != [] && !Closes(plan, prof, p, cs[0]) {
      SameResult(plan, prof, Next(plan, prof, p, cs[0]), Next(plan, prof, q, cs[0]), cs[1..]);
    }
  }

  /** A trade that does not close on the first bar does not close at that bar's time. */
  lemma ClosesLater(plan: Plan, prof: Profile, p: Progress, c: Candle, rest: seq<Candle>)
    requires IncreasingTimes([c] + rest) && Pristine(p)
    ensures ResultFrom(plan, prof, p, rest).closeTs != Some(c.timestamp)
  {
    LookAhead.PlainRunCloses(plan, prof, p, rest);
    var r := PlainRun(plan, prof, p, rest);
    assert r.bar < |rest| ==> ([c] + rest)[0].timestamp < ([c] + rest)[r.bar + 1].timestamp == rest[r.bar].timestamp;
  }

  lemma ResultAt(plan: Plan, prof: Profile, p: Progress, cs: seq<Candle>, at: nat)
    requires at < |cs|
    ensures ResultFrom(plan, prof, p, cs[at..])
         == if Closes(plan, prof, p, cs[at]) then PlainResult(Next(plan, prof, p, cs[at]))
            else ResultFrom(plan, prof, Next(plan, prof, p, cs[at]), cs[at + 1..])
  {
    assert cs[at..][1..] == cs[at + 1..];
  }

  /** Until the entry, the expiry or TP1 is met, neither a fresh trade nor a protected one does anything. */
  lemma BothHold(plan: Plan, prof: Profile, held: Progress, rest: seq<Candle>, n: nat)
    requires OrderedLevels(plan) && prof.moveSlToBe && held.status.TP1_HIT?
    requires n <= First(c => Lapsed(plan, prof, c), rest, 0)
    requires n <= FirstStop(plan, plan.entry, rest, 0) && n <= FirstTouch(plan, plan.tp1, rest, 0)
    ensures ResultFrom(plan, prof, FRESH, rest) == ResultFrom(plan, prof, FRESH, rest[n..])
    ensures ResultFrom(plan, prof, held, rest) == ResultFrom(plan, prof, held, rest[n..])
  {
    forall k | 0 <= k < n
      ensures Judge(plan, prof, TRIGGERED, rest[k]) == Hold && Judge(plan, prof, TP1_HIT, rest[k]) == Hold
    {
    }
    HeldBarsSkip(plan, prof, FRESH, rest, n);
    HeldBarsSkip(plan, prof, held, rest, n);
  }

  lemma AfterOneBar(plan: Plan, prof: Profile, held: Progress, rest: seq<Candle>, at: nat)
    requires at < |rest| && IncreasingTimes(rest) && OrderedLevels(plan) && prof.moveSlToBe
    requires Pristine(held) && held.status.TP1_HIT?
    ensures var c := rest[at];
            ResultFrom(plan, prof, FRESH, rest[at..]) == ResultFrom(plan, prof, held, rest[at..])
            <==> || (Judge(plan, prof, TRIGGERED, c) == FirstTarget && Judge(plan, prof, TP1_HIT, c) == Hold)
                 || Judge(plan, prof, TP1_HIT, c) == FullTarget
                 || (Judge(plan, prof, TP1_HIT, c) == Hold && Judge(plan, prof, TRIGGERED, c) == Hold
                     && ResultFrom(plan, prof, FRESH, rest[at + 1..]) == ResultFrom(plan, prof, held, rest[at + 1..]))
  {
    var c, later := rest[at], rest[at + 1..];
    ResultAt(plan, prof, FRESH, rest, at);
    ResultAt(plan, prof, held, rest, at);
    assert IncreasingTimes([c] + later) by { assert [c] + later == rest[at..]; }
    var v := Judge(plan, prof, TRIGGERED, c);
    var fresh' := Next(plan, prof, FRESH, c);
    if v == FirstTarget {
      SameResult(plan, prof, fresh', held, later);
    }
    if !Terminal(v) {
      ClosesLater(plan, prof, fresh', c, later);
    }
  }

  /** With break-even on, a trade already past TP1 ends like a fresh one exactly under `ReachedAgain`. */
  lemma ProtectedIff(plan: Plan, prof: Profile, held: Progress, rest: seq<Candle>)
    requires IncreasingTimes(rest) && OrderedLevels(plan) && prof.moveSlToBe
    requires Pristine(held) && held.status.TP1_HIT?
    ensures ResultFrom(plan, prof, FRESH, rest) == ResultFrom(plan, prof, held, rest) <==> ReachedAgain(plan, rest, prof)
  {
    hide ResultFrom;
    var lapse := First(c => Lapsed(plan, prof, c), rest, 0);
    var entry := FirstStop(plan, plan.entry, rest, 0);
    var tp1 := FirstTouch(plan, plan.tp1, rest, 0);
    var harm := if lapse <= entry then lapse else entry;
    var n := if tp1 <= harm then tp1 else harm;
    BothHold(plan, prof, held, rest, n);
    if n == |rest| {
      EndsOpen(plan, prof, held, rest[n..]);
    } else {
      AfterOneBar(plan, prof, held, rest, n);
    }
  }

  lemma EndsOpen(plan: Plan, prof: Profile, held: Progress, none: seq<Candle>)
    requires none == [] && Pristine(held)
    ensures ResultFrom(plan, prof, FRESH, none) == ResultFrom(plan, prof, held, none)
  {}

  /** Skipping the first bar leaves the result alone exactly if the bar does nothing, or reaches TP1 harmlessly. */
  lemma SkippingFirstBarIff(plan: Plan, prof: Profile, bars: seq<Candle>)
    requires bars != [] && IncreasingTimes(bars) && OrderedLevels(plan)
    ensures ResultFrom(plan, prof, FRESH, bars) == ResultFrom(plan, prof, FRESH, bars[1..]) <==> Skippable(plan, prof, bars)
  {
    var c, rest := bars[0], bars[1..];
    var held := Next(plan, prof, FRESH, c);
    assert bars == [c] + rest;
    if Closes(plan, prof, FRESH, c) {
      ClosesLater(plan, prof, FRESH, c, rest);
    } else if held.status.TP1_HIT? {
      if prof.moveSlToBe {
        ProtectedIff(plan, prof, held, rest);
      } else {
        SameResult(plan, prof, FRESH, held, rest);
      }
    }
  }

  /** Where a fresh signal stands after the first `k` bars, in closed form. */
  function After(plan: Plan, prof: Profile, bars: seq<Candle>, k: nat): Progress
    requires k <= |bars|
  {
    Passage(plan, prof, bars[..k])
  }

  /** The first `k` bars can be skipped: they close nothing, and if they reach TP1 it makes no difference later. */
  predicate SkippableTo(plan: Plan, prof: Profile, bars: seq<Candle>, k: nat)
    requires k <= |bars|
  {
    var p := After(plan, prof, bars, k);
    Open(p.status) && (p.status.TRIGGERED? || !prof.moveSlToBe || ReachedAgain(plan, bars[k..], prof))
  }

  /** A run either passes the first `k` bars open, or closes on one of them. */
  lemma {:induction false} PassThrough(plan: Plan, prof: Profile, p: Progress, bars: seq<Candle>, k: nat)
    requires Pristine(p) && k <= |bars| && AllWellFormed(bars)
    ensures Replay(plan, prof, p, bars[..k]).Finished?
    ensures var q := Replay(plan, prof, p, bars[..k]).progress;
            if Open(q.status) then Pristine(q) && ResultFrom(plan, prof, p, bars) == ResultFrom(plan, prof, q, bars[k..])
            else PlainRun(plan, prof, p, bars).bar < k
    decreases k
  {
    if k == 0 {
      assert bars[0..] == bars;
    } else {
      var c, rest := bars[0], bars[1..];
      assert bars[..k][0] == c && bars[..k][1..] == rest[..k - 1] && c in bars;
      if !Closes(plan, prof, p, c) {
        PassThrough(plan, prof, Next(plan, prof, p, c), rest, k - 1);
        assert rest[k - 1..] == bars[k..];
      }
    }
  }

  /** A run that closes on one of the first `k` bars has not the result of one over the later bars. */
  lemma ClosesTooEarly(plan: Plan, prof: Profile, bars: seq<Candle>, k: nat)
    requires k <= |bars| && IncreasingTimes(bars) && PlainRun(plan, prof, FRESH, bars).bar < k
    ensures ResultFrom(plan, prof, FRESH, bars) != ResultFrom(plan, prof, FRESH, bars[k..])
  {
    LookAhead.PlainRunCloses(plan, prof, FRESH, bars);
    LookAhead.PlainRunCloses(plan, prof, FRESH, bars[k..]);
    var early, late := PlainRun(plan, prof, FRESH, bars), PlainRun(plan, prof, FRESH, bars[k..]);
    assert late.bar < |bars[k..]| ==> bars[k..][late.bar] == bars[k + late.bar];
  }

  /** Skipping the first `k` bars leaves the result alone exactly under `SkippableTo`. */
  lemma SkippingBarsIff(plan: Plan, prof: Profile, bars: seq<Candle>, k: nat)
    requires k <= |bars| && IncreasingTimes(bars) && AllWellFormed(bars) && OrderedLevels(plan)
    ensures ResultFrom(plan, prof, FRESH, bars) == ResultFrom(plan, prof, FRESH, bars[k..])
       <==> SkippableTo(plan, prof, bars, k)
  {
    hide ResultFrom, ReachedAgain, Replay, Passage, PlainRun;
    var p := After(plan, prof, bars, k);
    ReplayIsFirstPassage(plan, prof, bars[..k]);
    PassThrough(plan, prof, FRESH, bars, k);
    assert IncreasingTimes(bars[k..]);
    if !Open(p.status) {
      ClosesTooEarly(plan, prof, bars, k);
    } else if p.status.TRIGGERED? || !prof.moveSlToBe {
      SameResult(plan, prof, FRESH, p, bars[k..]);
    } else {
      ProtectedIff(plan, prof, p, bars[k..]);
    }
  }

  // ----- The status query against the backtest -----

  lemma {:induction false} LaterIsSuffix(cs: seq<Candle>, t: int, n: nat)
    requires IncreasingTimes(cs) && n <= |cs|
    requires n > 0 ==> cs[n - 1].timestamp <= t
    requires n < |cs| ==> cs[n].timestamp > t
    ensures S.Later(cs, t) == cs[n..]
    decreases |cs|
  {
    if cs != [] {
      assert IncreasingTimes(cs[1..]);
      LaterIsSuffix(cs[1..], t, if n > 0 then n - 1 else 0);
    }
  }

  /**
   For a setup on the last visible bar, which closes at the trigger, a status query over the same
   history answers what the backtest simulated if and only if no bar opens exactly at the trigger,
   or that bar can be skipped.
   */
  lemma QueryMatchesOnLastBarIff(plan: Plan, prof: Profile, ltf: string, history: seq<Candle>, seen: nat)
    requires IncreasingTimes(history) && AllWellFormed(history) && OrderedLevels(plan)
    requires plan.riskPips != 0.0 && 0 < seen <= |history| && ltf != "" && plan.triggeredAt != 0
    requires history[seen - 1].timestamp < plan.triggeredAt
    requires seen < |history| ==> plan.triggeredAt <= history[seen].timestamp
    ensures var future := history[seen..];
            && S.StatusOf(plan, prof, ltf, history).Answered?
            && (PlainResult(S.StatusOf(plan, prof, ltf, history).progress) == Simulated(plan, prof, 0.0, future).result
                <==> future == [] || future[0].timestamp != plan.triggeredAt || Skippable(plan, prof, future))
  {
    var future := history[seen..];
    assert IncreasingTimes(future);
    var skips := seen < |history| && history[seen].timestamp == plan.triggeredAt;
    var n := if skips then seen + 1 else seen;
    LaterIsSuffix(history, plan.triggeredAt, n);
    assert skips ==> history[n..] == future[1..];
    PlainRunIsReplay(plan, prof, FRESH, history[n..]);
    hide Skippable, Replay;
    if skips {
      SkippingFirstBarIff(plan, prof, future);
    }
  }

  lemma SuffixFacts(cs: seq<Candle>, n: nat)
    requires n <= |cs| && IncreasingTimes(cs) && AllWellFormed(cs)
    ensures IncreasingTimes(cs[n..]) && AllWellFormed(cs[n..])
  {}

  /** A status query gives the result of one replay over the bars after the trigger. */
  lemma QueryIsSuffixResult(plan: Plan, prof: Profile, ltf: string, history: seq<Candle>)
    requires IncreasingTimes(history) && AllWellFormed(history) && history != [] && ltf != ""
    ensures var answer := S.StatusOf(plan, prof, ltf, history);
            && answer.Answered?
            && PlainResult(answer.progress)
               == ResultFrom(plan, prof, FRESH, history[BisectRight(history, S.ReplayFrom(plan))..])
  {
    hide IncreasingTimes, AllWellFormed, Replay, PlainRun;
    var n := BisectRight(history, S.ReplayFrom(plan));
    SuffixFacts(history, n);
    LaterIsSuffix(history, S.ReplayFrom(plan), n);
    PlainRunIsReplay(plan, prof, FRESH, history[n..]);
  }

  /**
   Whatever bar the setup was found on and however many are visible, a status query over the same
   history answers what the backtest simulated if and only if the bars that only one of the two
   replays can be skipped: those between the trigger and the last visible bar, or the bar at the trigger.
   */
  lemma QueryMatchesBacktestIff(plan: Plan, prof: Profile, ltf: string, history: seq<Candle>, seen: nat)
    requires IncreasingTimes(history) && AllWellFormed(history) && OrderedLevels(plan)
    requires plan.riskPips != 0.0 && seen <= |history| && history != [] && ltf != ""
    ensures var queried := BisectRight(history, S.ReplayFrom(plan));
            var from, upto := if queried <= seen then queried else seen, if queried <= seen then seen else queried;
            && S.StatusOf(plan, prof, ltf, history).Answered?
            && (PlainResult(S.StatusOf(plan, prof, ltf, history).progress) == Simulated(plan, prof, 0.0, history[seen..]).result
                <==> SkippableTo(plan, prof, history[from..], upto - from))
  {
    hide *;
    var queried := BisectRight(history, S.ReplayFrom(plan));
    var from, upto := if queried <= seen then queried else seen, if queried <= seen then seen else queried;
    QueryIsSuffixResult(plan, prof, ltf, history);
    SuffixFacts(history, from);
    SkippingBarsIff(plan, prof, history[from..], upto - from);
    assert history[from..][upto - from..] == history[upto..];
    PlainSimulated(plan, prof, history[seen..]);
  }

  lemma PlainSimulated(plan: Plan, prof: Profile, cs: seq<Candle>)
    requires plan.riskPips != 0.0
    ensures Simulated(plan, prof, 0.0, cs).result == ResultFrom(plan, prof, FRESH, cs)
  {}
}
