/**
 What the live watchlist does to one signal over its life (the candle loop of
 `update_watchlist` in src/app/services/signal_service.py). Every update scans
 the signal's candles again from the first one after the trigger, starting from
 the status the previous update left behind.
 */
module LiveRescan {
  import opened Domain
  import opened Lifecycle
  import opened FirstPassage

  datatype Notice = Tp1Reached | Closed(status: Status)

  datatype Scan = Scan(progress: Progress, notices: seq<Notice>, raised: bool)

  /** What one candle makes the service emit. */
  function StepNotices(v: Verdict, after: Status): seq<Notice> {
    if Terminal(v) then [Closed(after)] else if v.FirstTarget? then [Tp1Reached] else []
  }

  /** One update of one signal: step through the candles until it is no longer open. */
  function ScanSignal(plan: Plan, prof: Profile, p: Progress, cs: seq<Candle>): Scan
    decreases |cs|
  {
    if cs == [] then Scan(p, [], false)
    else if !WellFormed(cs[0]) then Scan(p, [], true)
    else
      var v := Judge(plan, prof, p.status, cs[0]);
      var q := Apply(plan, prof, p, v, cs[0]);
      var here := StepNotices(v, q.status);
      if Terminal(v) || !Open(q.status) then Scan(q, here, false)
      else
        var rest := ScanSignal(plan, prof, q, cs[1..]);
        rest.(notices := here + rest.notices)
  }

  /** A whole life: one batch of candles per update, closed signals left alone. */
  function Life(plan: Plan, prof: Profile, batches: seq<seq<Candle>>): Scan
  {
    if batches == [] then Scan(FRESH, [], false)
    else
      var before := Life(plan, prof, batches[..|batches| - 1]);
      if !Open(before.progress.status) then before
      else
        var s := ScanSignal(plan, prof, before.progress, batches[|batches| - 1]);
        Scan(s.progress, before.notices + s.notices, before.raised || s.raised)
  }

  // ----- Event discipline -----

  /** The notices a signal may have produced, given the status it started from and its state now. */
  predicate Disciplined(start: Status, now: Progress, notices: seq<Notice>) {
    var tp1 := if start.TRIGGERED? && |notices| > 0 && notices[0].Tp1Reached? then [Tp1Reached] else [];
    if Open(now.status) then
      && notices == tp1
      && now.outcome.None?
      && (now.status.TP1_HIT? <==> start.TP1_HIT? || tp1 != [])
    else
      && notices == tp1 + [Closed(now.status)]
      && (now.status.TP2_HIT? || now.status.SL_HIT? || now.status.EXPIRED?)
      && now.outcome.Some? && now.realizedRr.Some? && now.closePrice.Some? && now.closedAt.Some?
  }

  lemma {:induction false} ScanIsDisciplined(plan: Plan, prof: Profile, p: Progress, cs: seq<Candle>)
    requires Open(p.status) && p.outcome.None?
    ensures var s := ScanSignal(plan, prof, p, cs);
            Disciplined(p.status, s.progress, s.notices)
    decreases |cs|
  {
    if cs != [] && WellFormed(cs[0]) && !Closes(plan, prof, p, cs[0]) {
      var q := Next(plan, prof, p, cs[0]);
      ScanIsDisciplined(plan, prof, q, cs[1..]);
      var rest := ScanSignal(plan, prof, q, cs[1..]);
      if q.status != p.status {
        assert rest.notices == [] || rest.notices == [Closed(rest.progress.status)];
      }
    }
  }

  /**
   Over any sequence of updates, whatever the candles, a signal reports TP1 at
   most once and a close at most once, TP1 first; a close is reported exactly when
   the signal stops being open, always with its outcome, R and price set.
   */
  lemma {:induction false} LifeIsDisciplined(plan: Plan, prof: Profile, batches: seq<seq<Candle>>)
    ensures var life := Life(plan, prof, batches);
            Disciplined(TRIGGERED, life.progress, life.notices)
  {
    if batches != [] {
      var earlier := batches[..|batches| - 1];
      LifeIsDisciplined(plan, prof, earlier);
      var before := Life(plan, prof, earlier);
      if Open(before.progress.status) {
        ScanIsDisciplined(plan, prof, before.progress, batches[|batches| - 1]);
      }
    }
  }

  /** A batch's notices end with a close. */
  predicate Closing(notices: seq<Notice>) {
    notices != [] && notices[|notices| - 1].Closed?
  }

  /** An open signal is reported closed exactly when it stops being open. */
  lemma {:induction false} OpenUntilClosing(plan: Plan, prof: Profile, p: Progress, cs: seq<Candle>)
    requires Open(p.status)
    ensures var s := ScanSignal(plan, prof, p, cs);
            Closing(s.notices) <==> !Open(s.progress.status)
    decreases |cs|
  {
    if cs != [] && WellFormed(cs[0]) && !Closes(plan, prof, p, cs[0]) {
      OpenUntilClosing(plan, prof, Next(plan, prof, p, cs[0]), cs[1..]);
    }
  }

  /**
   A signal that an overlapping update has already closed is reported again, as expired, if and only
   if the first candle of the batch is well formed and past its expiry; its outcome, R and price stay.
   */
  lemma ClosedSignalIsReportedAgainIff(plan: Plan, prof: Profile, p: Progress, cs: seq<Candle>)
    requires !Open(p.status)
    ensures var s := ScanSignal(plan, prof, p, cs);
            && (s.notices == [Closed(EXPIRED)] <==> cs != [] && WellFormed(cs[0]) && Lapsed(plan, prof, cs[0]))
            && (s.notices != [Closed(EXPIRED)] ==> s.notices == [] && s.progress == p)
            && (s.raised <==> cs != [] && !WellFormed(cs[0]))
            && s.progress.outcome == p.outcome && s.progress.realizedRr == p.realizedRr
            && s.progress.closePrice == p.closePrice && !Open(s.progress.status)
  {
  }

  // ----- Rescanning against one pass -----

  lemma {:induction false} ScanIsReplay(plan: Plan, prof: Profile, p: Progress, cs: seq<Candle>)
    requires Open(p.status) && AllWellFormed(cs)
    ensures var s := ScanSignal(plan, prof, p, cs);
            !s.raised && Replay(plan, prof, p, cs) == Finished(s.progress)
    decreases |cs|
  {
    if cs != [] && !Closes(plan, prof, p, cs[0]) {
      ScanIsReplay(plan, prof, Next(plan, prof, p, cs[0]), cs[1..]);
    }
  }

  /** The candles known at each update: growing prefixes of one series. */
  predicate Growing(ns: seq<nat>, bound: nat) {
    && (forall i, j :: 0 <= i <= j < |ns| ==> ns[i] <= ns[j])
    && (forall i :: 0 <= i < |ns| ==> ns[i] <= bound)
  }

  function Prefixes(cs: seq<Candle>, ns: seq<nat>): seq<seq<Candle>>
    requires Growing(ns, |cs|)
  {
    seq(|ns|, i requires 0 <= i < |ns| => cs[..ns[i]])
  }

  /** The live state after updates that saw the prefixes `ns`. */
  function Rescanned(plan: Plan, prof: Profile, cs: seq<Candle>, ns: seq<nat>): Progress
    requires Growing(ns, |cs|)
  {
    Life(plan, prof, Prefixes(cs, ns)).progress
  }

  /** The state one pass over the first `n` candles gives. */
  function OnePass(plan: Plan, prof: Profile, cs: seq<Candle>, n: nat): Progress
    requires n <= |cs|
  {
    Passage(plan, prof, cs[..n])
  }

  lemma RescannedStep(plan: Plan, prof: Profile, cs: seq<Candle>, ns: seq<nat>)
    requires Growing(ns, |cs|) && |ns| > 0 && AllWellFormed(cs)
    ensures var before := Rescanned(plan, prof, cs, ns[..|ns| - 1]);
            var last := cs[..ns[|ns| - 1]];
            if Open(before.status) then
              Replay(plan, prof, before, last) == Finished(Rescanned(plan, prof, cs, ns))
            else Rescanned(plan, prof, cs, ns) == before
  {
    var m := |ns| - 1;
    assert Prefixes(cs, ns)[..m] == Prefixes(cs, ns[..m]);
    var before := Rescanned(plan, prof, cs, ns[..m]);
    if Open(before.status) {
      ScanIsReplay(plan, prof, before, cs[..ns[m]]);
    }
  }

  lemma FirstInPrefix(hit: Candle -> bool, cs: seq<Candle>, n: nat, from: nat)
    requires from <= n <= |cs|
    ensures First(hit, cs[..n], from) == if First(hit, cs, from) < n then First(hit, cs, from) else n
  {
  }

  lemma TerminalLeavesTp1(plan: Plan, prof: Profile)
    ensures forall p, v, c :: Terminal(v) ==> !Apply(plan, prof, p, v, c).status.TP1_HIT?
  {}

  lemma HoldsAfterTp1(plan: Plan, prof: Profile, held: Progress, cs: seq<Candle>, from: nat)
    requires from <= |cs| && PassageAfterTp1(plan, prof, held, cs, from).status.TP1_HIT?
    ensures PassageAfterTp1(plan, prof, held, cs, from) == held
    ensures forall k :: from <= k < |cs| ==> Judge(plan, prof, TP1_HIT, cs[k]) == Hold
  {
    hide Apply;
    TerminalLeavesTp1(plan, prof);
  }

  lemma PassageHoldsPastTp1(plan: Plan, prof: Profile, cs: seq<Candle>)
    requires Passage(plan, prof, cs).status.TP1_HIT?
    ensures var t := FirstTouch(plan, plan.tp1, cs, 0);
            && t < |cs|
            && Passage(plan, prof, cs) == AfterTp1(cs, t)
            && (forall k :: 0 <= k < t ==> Judge(plan, prof, TRIGGERED, cs[k]) == Hold)
            && Judge(plan, prof, TRIGGERED, cs[t]) == FirstTarget
            && (forall k :: t < k < |cs| ==> Judge(plan, prof, TP1_HIT, cs[k]) == Hold)
  {
    hide Apply, PassageAfterTp1, AfterTp1;
    TerminalLeavesTp1(plan, prof);
    var t := FirstTouch(plan, plan.tp1, cs, 0);
    assert Passage(plan, prof, cs) == PassageAfterTp1(plan, prof, AfterTp1(cs, t), cs, t + 1);
    HoldsAfterTp1(plan, prof, AfterTp1(cs, t), cs, t + 1);
  }

  /** What it means that one pass over `n` candles leaves the signal past TP1. */
  lemma PastTp1(plan: Plan, prof: Profile, cs: seq<Candle>, n: nat)
    requires n <= |cs| && OnePass(plan, prof, cs, n).status.TP1_HIT?
    ensures var t := FirstTouch(plan, plan.tp1, cs, 0);
            && t < n
            && OnePass(plan, prof, cs, n) == AfterTp1(cs, t)
            && (forall k :: 0 <= k < t ==> Judge(plan, prof, TRIGGERED, cs[k]) == Hold)
            && Judge(plan, prof, TRIGGERED, cs[t]) == FirstTarget
            && (forall k :: t < k < n ==> Judge(plan, prof, TP1_HIT, cs[k]) == Hold)
  {
    PassageHoldsPastTp1(plan, prof, cs[..n]);
    FirstInPrefix(c => TouchesTarget(plan.direction, c, plan.tp1), cs, n, 0);
    assert forall k :: 0 <= k < n ==> cs[..n][k] == cs[k];
  }

  /** From TP1 on, one pass is a replay of the later bars. */
  lemma OnePassAfterTp1(plan: Plan, prof: Profile, cs: seq<Candle>, n: nat, later: nat)
    requires n <= later <= |cs| && AllWellFormed(cs) && OnePass(plan, prof, cs, n).status.TP1_HIT?
    ensures var t := FirstTouch(plan, plan.tp1, cs, 0);
            && t < n
            && Replay(plan, prof, AfterTp1(cs, t), cs[..later][t + 1..]) == Finished(OnePass(plan, prof, cs, later))
  {
    PastTp1(plan, prof, cs, n);
    var t := FirstTouch(plan, plan.tp1, cs, 0);
    var all := cs[..later];
    assert all[0..] == all;
    assert all[t] == cs[t];
    SkipHeld(plan, prof, FRESH, all, 0, t);
    ReplayAt(plan, prof, FRESH, all, t);
    ReplayIsFirstPassage(plan, prof, all);
  }

  /** If one pass closes a signal that was past TP1, it does so on a bar after TP1's. */
  lemma OnePassClosesAfterTp1(plan: Plan, prof: Profile, cs: seq<Candle>, n: nat, later: nat)
    requires n <= later <= |cs| && AllWellFormed(cs) && OnePass(plan, prof, cs, n).status.TP1_HIT?
    requires OnePass(plan, prof, cs, later).closedAt.Some?
    ensures exists k :: FirstTouch(plan, plan.tp1, cs, 0) < k < later
              && OnePass(plan, prof, cs, later).closedAt == Some(cs[k].timestamp)
  {
    hide Apply, Replay, OnePass, FirstTouch;
    OnePassAfterTp1(plan, prof, cs, n, later);
    var t := FirstTouch(plan, plan.tp1, cs, 0);
    ReplayClosesOnABar(plan, prof, AfterTp1(cs, t), cs[..later], t + 1);
  }

  lemma {:induction false} ReplayClosesOnABar(plan: Plan, prof: Profile, p: Progress, cs: seq<Candle>, from: nat)
    requires from <= |cs| && AllWellFormed(cs) && Open(p.status) && p.closedAt.None?
    ensures Replay(plan, prof, p, cs[from..]).Finished?
    ensures var end := Replay(plan, prof, p, cs[from..]).progress;
            && (Open(end.status) <==> end.closedAt.None?)
            && (end.closedAt.Some? ==> exists k :: from <= k < |cs| && end.closedAt == Some(cs[k].timestamp))
    decreases |cs| - from
  {
    if from < |cs| {
      ReplayAt(plan, prof, p, cs, from);
      if !Closes(plan, prof, p, cs[from]) {
        ReplayClosesOnABar(plan, prof, Next(plan, prof, p, cs[from]), cs, from + 1);
      }
    }
  }

  /** A rescan that meets the entry by the TP1 bar closes there, before it reaches that bar. */
  lemma RescanStopsAtEntry(plan: Plan, prof: Profile, cs: seq<Candle>, n: nat, later: nat)
    requires n <= later <= |cs| && AllWellFormed(cs) && OrderedLevels(plan)
    requires OnePass(plan, prof, cs, n).status.TP1_HIT?
    requires prof.moveSlToBe && EntryTouchedByTp1(plan, cs)
    ensures var t := FirstTouch(plan, plan.tp1, cs, 0);
            var exit := FirstStop(plan, plan.entry, cs, 0);
            t < n && Replay(plan, prof, AfterTp1(cs, t), cs[..later])
                     == Finished(Apply(plan, prof, AfterTp1(cs, t), StopOut, cs[exit]))
  {
    hide Replay, OnePass;
    PastTp1(plan, prof, cs, n);
    var t := FirstTouch(plan, plan.tp1, cs, 0);
    var exit := FirstStop(plan, plan.entry, cs, 0);
    var all := cs[..later];
    assert all[0..] == all && all[exit] == cs[exit];
    SkipHeld(plan, prof, AfterTp1(cs, t), all, 0, exit);
    ReplayAt(plan, prof, AfterTp1(cs, t), all, exit);
  }

  /** Otherwise the rescan passes the TP1 bar again unharmed and catches up. */
  lemma RescanCatchesUp(plan: Plan, prof: Profile, cs: seq<Candle>, n: nat, later: nat)
    requires n <= later <= |cs| && AllWellFormed(cs) && OrderedLevels(plan)
    requires OnePass(plan, prof, cs, n).status.TP1_HIT?
    requires !prof.moveSlToBe || !EntryTouchedByTp1(plan, cs)
    ensures var t := FirstTouch(plan, plan.tp1, cs, 0);
            t < n && Replay(plan, prof, AfterTp1(cs, t), cs[..later]) == Finished(OnePass(plan, prof, cs, later))
  {
    hide Apply, Replay, OnePass;
    PastTp1(plan, prof, cs, n);
    var t := FirstTouch(plan, plan.tp1, cs, 0);
    var all := cs[..later];
    assert all[0..] == all;
    forall k | 0 <= k <= t
      ensures Judge(plan, prof, TP1_HIT, all[k]) == Hold
    {
      assert all[k] == cs[k];
    }
    SkipHeld(plan, prof, AfterTp1(cs, t), all, 0, t + 1);
    OnePassAfterTp1(plan, prof, cs, n, later);
  }

  /** A close is final: more candles do not change it. */
  lemma ClosedPassIsFinal(plan: Plan, prof: Profile, cs: seq<Candle>, n: nat, later: nat)
    requires n <= later <= |cs| && AllWellFormed(cs)
    requires !Open(OnePass(plan, prof, cs, n).status)
    ensures OnePass(plan, prof, cs, later) == OnePass(plan, prof, cs, n)
  {
    ReplayIsFirstPassage(plan, prof, cs[..n]);
    ReplayIsFirstPassage(plan, prof, cs[..later]);
    ReplayExtends(plan, prof, FRESH, cs[..n], cs[n..later]);
    assert cs[..n] + cs[n..later] == cs[..later];
  }

  lemma {:induction false} ReplayExtends(plan: Plan, prof: Profile, p: Progress, cs: seq<Candle>, more: seq<Candle>)
    requires AllWellFormed(cs) && Open(p.status)
    ensures Replay(plan, prof, p, cs).Finished?
    ensures var end := Replay(plan, prof, p, cs).progress;
            Replay(plan, prof, p, cs + more)
            == if Open(end.status) then Replay(plan, prof, end, more) else Finished(end)
    decreases |cs|
  {
    if cs == [] {
      assert cs + more == more;
    } else {
      assert (cs + more)[1..] == cs[1..] + more;
      if !Closes(plan, prof, p, cs[0]) {
        ReplayExtends(plan, prof, Next(plan, prof, p, cs[0]), cs[1..], more);
      }
    }
  }

  /** An update before the last one that left the signal past TP1. */
  predicate Tp1LeftEarlier(plan: Plan, prof: Profile, cs: seq<Candle>, ns: seq<nat>)
    requires Growing(ns, |cs|)
  {
    exists j :: 0 <= j < |ns| - 1 && OnePass(plan, prof, cs, ns[j]).status.TP1_HIT?
  }

  /** Some candle up to and including the TP1 candle touches the entry. */
  predicate EntryTouchedByTp1(plan: Plan, cs: seq<Candle>) {
    FirstStop(plan, plan.entry, cs, 0) <= FirstTouch(plan, plan.tp1, cs, 0)
  }

  /** One more update, after updates that agree with one pass. */
  lemma RescanAfterAgreement(plan: Plan, prof: Profile, cs: seq<Candle>, n: nat, later: nat)
    requires n <= later <= |cs| && AllWellFormed(cs) && OrderedLevels(plan)
    requires Open(OnePass(plan, prof, cs, n).status)
    ensures var t := FirstTouch(plan, plan.tp1, cs, 0);
            var exit := FirstStop(plan, plan.entry, cs, 0);
            var before := OnePass(plan, prof, cs, n);
            (before.status.TP1_HIT? ==> t < n) && Replay(plan, prof, before, cs[..later]) == Finished(
              if before.status.TP1_HIT? && prof.moveSlToBe && EntryTouchedByTp1(plan, cs) then
                Apply(plan, prof, AfterTp1(cs, t), StopOut, cs[exit])
              else OnePass(plan, prof, cs, later))
  {
    var before := OnePass(plan, prof, cs, n);
    if before.status.TP1_HIT? {
      PastTp1(plan, prof, cs, n);
      if prof.moveSlToBe && EntryTouchedByTp1(plan, cs) {
        RescanStopsAtEntry(plan, prof, cs, n, later);
      } else {
        RescanCatchesUp(plan, prof, cs, n, later);
      }
    } else {
      assert before == FRESH;
      ReplayIsFirstPassage(plan, prof, cs[..later]);
    }
  }

  lemma Tp1LeftEarlierStep(plan: Plan, prof: Profile, cs: seq<Candle>, ns: seq<nat>)
    requires Growing(ns, |cs|) && |ns| > 1
    ensures var m := |ns| - 1;
            Tp1LeftEarlier(plan, prof, cs, ns)
            <==> Tp1LeftEarlier(plan, prof, cs, ns[..m]) || OnePass(plan, prof, cs, ns[m - 1]).status.TP1_HIT?
  {
    var m := |ns| - 1;
    assert forall j :: 0 <= j < m ==> ns[..m][j] == ns[j];
    if Tp1LeftEarlier(plan, prof, cs, ns[..m]) {
      var j :| 0 <= j < m - 1 && OnePass(plan, prof, cs, ns[..m][j]).status.TP1_HIT?;
      assert OnePass(plan, prof, cs, ns[j]).status.TP1_HIT?;
    }
  }

  /** What a run of updates leaves: the one-pass state, or a close at the entry on a bar no later than TP1's. */
  lemma {:induction false} RescanOutcome(plan: Plan, prof: Profile, cs: seq<Candle>, ns: seq<nat>)
    requires Growing(ns, |cs|) && |ns| > 0 && AllWellFormed(cs) && OrderedLevels(plan)
    ensures var t := FirstTouch(plan, plan.tp1, cs, 0);
            var exit := FirstStop(plan, plan.entry, cs, 0);
            if prof.moveSlToBe && Tp1LeftEarlier(plan, prof, cs, ns) && EntryTouchedByTp1(plan, cs) then
              t < |cs| && Rescanned(plan, prof, cs, ns) == Apply(plan, prof, AfterTp1(cs, t), StopOut, cs[exit])
            else Rescanned(plan, prof, cs, ns) == OnePass(plan, prof, cs, ns[|ns| - 1])
    decreases |ns|
  {
    hide Apply, AfterTp1, Replay, OnePass, Rescanned, Tp1LeftEarlier, FirstTouch, FirstStop;
    var m := |ns| - 1;
    RescannedStep(plan, prof, cs, ns);
    if m == 0 {
      FirstUpdate(plan, prof, cs, ns);
    } else {
      var n := ns[m - 1];
      RescanOutcome(plan, prof, cs, ns[..m]);
      assert ns[..m][m - 1] == n;
      Tp1LeftEarlierStep(plan, prof, cs, ns);
      if prof.moveSlToBe && Tp1LeftEarlier(plan, prof, cs, ns[..m]) && EntryTouchedByTp1(plan, cs) {
        var t, exit := FirstTouch(plan, plan.tp1, cs, 0), FirstStop(plan, plan.entry, cs, 0);
        StopOutCloses(plan, prof, AfterTp1(cs, t), cs[exit]);
      }
      if Open(OnePass(plan, prof, cs, n).status) {
        RescanAfterAgreement(plan, prof, cs, n, ns[m]);
      } else {
        ClosedPassIsFinal(plan, prof, cs, n, ns[m]);
      }
    }
  }

  lemma FirstUpdate(plan: Plan, prof: Profile, cs: seq<Candle>, ns: seq<nat>)
    requires Growing(ns, |cs|) && |ns| == 1 && AllWellFormed(cs)
    ensures Rescanned(plan, prof, cs, ns) == OnePass(plan, prof, cs, ns[0]) && !Tp1LeftEarlier(plan, prof, cs, ns)
  {
    hide Replay, Passage;
    RescannedStep(plan, prof, cs, ns);
    assert ns[..0] == [];
    ReplayIsFirstPassage(plan, prof, cs[..ns[0]]);
  }

  lemma StopOutCloses(plan: Plan, prof: Profile, p: Progress, c: Candle)
    ensures !Open(Apply(plan, prof, p, StopOut, c).status)
  {}

  /**
   The live path agrees with one pass over all its candles exactly when break-even
   moves are off, or no earlier update left the signal past TP1, or no candle up to
   and including the TP1 candle touches the entry.
   */
  lemma LiveAgreesWithOnePass(plan: Plan, prof: Profile, cs: seq<Candle>, ns: seq<nat>)
    requires Growing(ns, |cs|) && |ns| > 0
    requires AllWellFormed(cs) && IncreasingTimes(cs) && OrderedLevels(plan)
    ensures Replay(plan, prof, FRESH, cs[..ns[|ns| - 1]]) == Finished(Rescanned(plan, prof, cs, ns))
       <==> !prof.moveSlToBe || !Tp1LeftEarlier(plan, prof, cs, ns) || !EntryTouchedByTp1(plan, cs)
  {
    var last := ns[|ns| - 1];
    ReplayIsFirstPassage(plan, prof, cs[..last]);
    RescanOutcome(plan, prof, cs, ns);
    if prof.moveSlToBe && Tp1LeftEarlier(plan, prof, cs, ns) && EntryTouchedByTp1(plan, cs) {
      var j :| 0 <= j < |ns| - 1 && OnePass(plan, prof, cs, ns[j]).status.TP1_HIT?;
      if OnePass(plan, prof, cs, last).closedAt.Some? {
        OnePassClosesAfterTp1(plan, prof, cs, ns[j], last);
      }
    }
  }
}
