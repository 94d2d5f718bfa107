/**
 The stateful replay in closed form: where a signal ends up is decided by the
 first bars at which it lapses and at which its stop, TP1, TP2 and post-TP1 stop
 are touched, with fixed rules for bars on which several of them meet.
 */
module FirstPassage {
  import opened Domain
  import opened Lifecycle

  /** The least index from `from` on whose candle satisfies `hit`, or the length. */
  function First(hit: Candle -> bool, cs: seq<Candle>, from: nat): (i: nat)
    requires from <= |cs|
    ensures from <= i <= |cs|
    ensures i < |cs| ==> hit(cs[i])
    ensures forall k :: from <= k < i ==> !hit(cs[k])
    decreases |cs| - from
  {
    if from == |cs| || hit(cs[from]) then from else First(hit, cs, from + 1)
  }

  function FirstTouch(plan: Plan, level: real, cs: seq<Candle>, from: nat): nat
    requires from <= |cs|
  {
    First(c => TouchesTarget(plan.direction, c, level), cs, from)
  }

  function FirstStop(plan: Plan, level: real, cs: seq<Candle>, from: nat): nat
    requires from <= |cs|
  {
    First(c => TouchesStop(plan.direction, c, level), cs, from)
  }

  /** The state after TP1 was reached on bar `at`. */
  function AfterTp1(cs: seq<Candle>, at: nat): Progress
    requires at < |cs|
  {
    FRESH.(status := TP1_HIT, tp1HitAt := Some(cs[at].timestamp))
  }

  /** Where a signal holding past TP1 ends up, by first touches from bar `from` on. */
  function PassageAfterTp1(plan: Plan, prof: Profile, held: Progress, cs: seq<Candle>, from: nat): Progress
    requires from <= |cs|
  {
    var lapse := First(c => Lapsed(plan, prof, c), cs, from);
    var tp2 := FirstTouch(plan, plan.tp2, cs, from);
    var exit := FirstStop(plan, EffectiveStop(plan, prof, TP1_HIT), cs, from);
    if lapse == |cs| && tp2 == |cs| && exit == |cs| then held
    else if lapse <= tp2 && lapse <= exit then Apply(plan, prof, held, Lapse, cs[lapse])
    else if tp2 <= exit then Apply(plan, prof, held, FullTarget, cs[tp2])
    else Apply(plan, prof, held, StopOut, cs[exit])
  }

  /**
   The final state of a fresh signal over a whole series, without running it.
   Ties: lapsing comes first; TP1 and TP2 on one bar beat the stop; the stop beats
   TP1 alone; TP2 beats the post-TP1 stop.
   */
  function Passage(plan: Plan, prof: Profile, cs: seq<Candle>): Progress {
    var lapse := First(c => Lapsed(plan, prof, c), cs, 0);
    var stop := FirstStop(plan, plan.stop, cs, 0);
    var tp1 := FirstTouch(plan, plan.tp1, cs, 0);
    if lapse == |cs| && stop == |cs| && tp1 == |cs| then FRESH
    else if lapse <= stop && lapse <= tp1 then Apply(plan, prof, FRESH, Lapse, cs[lapse])
    else if tp1 <= stop && TouchesTarget(plan.direction, cs[tp1], plan.tp2) then
      Apply(plan, prof, FRESH, FullTarget, cs[tp1])
    else if stop <= tp1 then Apply(plan, prof, FRESH, StopOut, cs[stop])
    else PassageAfterTp1(plan, prof, AfterTp1(cs, tp1), cs, tp1 + 1)
  }

  /** Bars on which nothing happens can be skipped. */
  lemma {:induction false} SkipHeld(plan: Plan, prof: Profile, p: Progress, cs: seq<Candle>, from: nat, upto: nat)
    requires from <= upto <= |cs| && AllWellFormed(cs)
    requires forall k :: from <= k < upto ==> Judge(plan, prof, p.status, cs[k]) == Hold
    ensures Replay(plan, prof, p, cs[from..]) == Replay(plan, prof, p, cs[upto..])
    decreases upto - from
  {
    if from < upto {
      assert cs[from..][1..] == cs[from + 1..];
      SkipHeld(plan, prof, p, cs, from + 1, upto);
    }
  }

  /** One bar of a replay that starts at index `at`. */
  lemma ReplayAt(plan: Plan, prof: Profile, p: Progress, cs: seq<Candle>, at: nat)
    requires at < |cs| && AllWellFormed(cs)
    ensures Replay(plan, prof, p, cs[at..])
         == if Closes(plan, prof, p, cs[at]) then Finished(Next(plan, prof, p, cs[at]))
            else Replay(plan, prof, Next(plan, prof, p, cs[at]), cs[at + 1..])
  {
    assert cs[at..][1..] == cs[at + 1..];
  }

  lemma ReplayAfterTp1(plan: Plan, prof: Profile, p: Progress, cs: seq<Candle>, from: nat)
    requires from <= |cs| && AllWellFormed(cs) && p.status.TP1_HIT?
    ensures Replay(plan, prof, p, cs[from..]) == Finished(PassageAfterTp1(plan, prof, p, cs, from))
  {
    var lapse := First(c => Lapsed(plan, prof, c), cs, from);
    var tp2 := FirstTouch(plan, plan.tp2, cs, from);
    var exit := FirstStop(plan, EffectiveStop(plan, prof, TP1_HIT), cs, from);
    var at := if lapse <= tp2 && lapse <= exit then lapse else if tp2 <= exit then tp2 else exit;
    SkipHeld(plan, prof, p, cs, from, at);
    if at < |cs| {
      ReplayAt(plan, prof, p, cs, at);
    }
  }

  lemma FirstTargetOpensTp1(plan: Plan, prof: Profile, cs: seq<Candle>, tp1: nat)
    requires tp1 < |cs|
    ensures Apply(plan, prof, FRESH, FirstTarget, cs[tp1]) == AfterTp1(cs, tp1)
    ensures AfterTp1(cs, tp1).status.TP1_HIT?
  {}

  /** The replay of a fresh signal is exactly its first-passage closed form. */
  lemma ReplayIsFirstPassage(plan: Plan, prof: Profile, cs: seq<Candle>)
    requires AllWellFormed(cs)
    ensures Replay(plan, prof, FRESH, cs) == Finished(Passage(plan, prof, cs))
  {
    hide Apply, PassageAfterTp1, AfterTp1;
    var lapse := First(c => Lapsed(plan, prof, c), cs, 0);
    var stop := FirstStop(plan, plan.stop, cs, 0);
    var tp1 := FirstTouch(plan, plan.tp1, cs, 0);
    var at := if lapse <= stop && lapse <= tp1 then lapse else if tp1 <= stop then tp1 else stop;
    assert cs[0..] == cs;
    SkipHeld(plan, prof, FRESH, cs, 0, at);
    if at < |cs| {
      ReplayAt(plan, prof, FRESH, cs, at);
      if Judge(plan, prof, TRIGGERED, cs[at]).FirstTarget? {
        assert at == tp1;
        FirstTargetOpensTp1(plan, prof, cs, tp1);
        ReplayAfterTp1(plan, prof, AfterTp1(cs, tp1), cs, tp1 + 1);
      }
    }
  }

  /** With levels in order, the TP2 touch that matters is the first one of the whole series. */
  lemma OrderedPassage(plan: Plan, prof: Profile, cs: seq<Candle>)
    requires OrderedLevels(plan)
    ensures var tp1 := FirstTouch(plan, plan.tp1, cs, 0);
            var tp2 := FirstTouch(plan, plan.tp2, cs, 0);
            && tp1 <= tp2
            && (tp1 < |cs| ==>
                  && (TouchesTarget(plan.direction, cs[tp1], plan.tp2) <==> tp1 == tp2)
                  && (tp1 < tp2 ==> tp2 == FirstTouch(plan, plan.tp2, cs, tp1 + 1)))
  {
  }
}
