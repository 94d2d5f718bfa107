/**
 When the session lets a setup through, told from the signals it entered and the
 outcomes it recorded before, and when losses pause it.
 */
module SessionLedger {
  import opened Domain
  import L = Lifecycle
  import opened Session

  // ----- A run as a list of states -----

  ghost predicate Fresh(s: State) {
    s.history == [] && s.pausedUntil == None && s.dead == {} && s.counts == map[] && s.open == map[] && s.seen == {}
  }

  ghost predicate IsTrace(cfg: Config, states: seq<State>, ops: seq<Op>) {
    && |states| == |ops| + 1 && Fresh(states[0])
    && forall i :: 0 <= i < |ops| ==> states[i + 1] == After(states[i], cfg, ops[i])
  }

  /** The setup that operation `i` entered: an offer let through and built, or a signal restored as open. */
  function Entered(cfg: Config, states: seq<State>, ops: seq<Op>, i: nat): Option<Candidate>
    requires |states| == |ops| + 1 && i < |ops|
  {
    match ops[i]
    case Offer(c, now, records, wall, built) =>
      if built && Answer(states[i], cfg, c, now, records, wall) == Allowed then Some(c) else None
    case Close(_, _) => None
    case Restore(c) => Some(c)
  }

  predicate EntersZone(cfg: Config, states: seq<State>, ops: seq<Op>, i: nat, c: Candidate)
    requires |states| == |ops| + 1 && i < |ops|
  {
    Entered(cfg, states, ops, i).Some? && SameZone(Entered(cfg, states, ops, i).value, c)
  }

  predicate EntersRejection(cfg: Config, states: seq<State>, ops: seq<Op>, i: nat, c: Candidate)
    requires |states| == |ops| + 1 && i < |ops|
  {
    Entered(cfg, states, ops, i).Some? && SameRejection(Entered(cfg, states, ops, i).value, c)
  }

  predicate EntersKey(cfg: Config, states: seq<State>, ops: seq<Op>, i: nat, c: Candidate)
    requires |states| == |ops| + 1 && i < |ops|
  {
    Entered(cfg, states, ops, i).Some? && SameKey(Entered(cfg, states, ops, i).value, c, cfg.multiTf)
  }

  predicate ClosesKey(cfg: Config, ops: seq<Op>, i: nat, c: Candidate)
    requires i < |ops|
  {
    ops[i].Close? && SameKey(ops[i].rec.setup, c, cfg.multiTf)
  }

  lemma {:induction false} TraceStaysSound(cfg: Config, states: seq<State>, ops: seq<Op>, n: nat)
    requires cfg.maxLosses >= 1 && IsTrace(cfg, states, ops) && n < |states|
    ensures Sound(states[n], cfg)
  {
    if n > 0 {
      TraceStaysSound(cfg, states, ops, n - 1);
      AfterKeepsSound(states[n - 1], cfg, ops[n - 1]);
    }
  }

  // ----- The ledger -----

  predicate SameZone(a: Candidate, b: Candidate) {
    a.symbol == b.symbol && a.htf == b.htf && a.ltf == b.ltf && a.htfTs == b.htfTs && a.direction == b.direction
  }

  predicate SameRejection(a: Candidate, b: Candidate) {
    a.symbol == b.symbol && a.htf == b.htf && a.ltf == b.ltf && a.rejTs == b.rejTs
  }

  /** One position per symbol and direction, or per timeframe pair as well. */
  predicate SameKey(a: Candidate, b: Candidate, multiTf: bool) {
    a.symbol == b.symbol && a.direction == b.direction && (multiTf ==> a.htf == b.htf && a.ltf == b.ltf)
  }

  /** The earlier operations that entered a setup from the zone of `c`. */
  function ZoneUses(cfg: Config, states: seq<State>, ops: seq<Op>, n: nat, c: Candidate): set<nat>
    requires |states| == |ops| + 1 && n <= |ops|
  {
    set i: nat | i < n && EntersZone(cfg, states, ops, i, c)
  }

  predicate RejectionUsed(cfg: Config, states: seq<State>, ops: seq<Op>, n: nat, c: Candidate)
    requires |states| == |ops| + 1 && n <= |ops|
  {
    exists i: nat :: i < n && EntersRejection(cfg, states, ops, i, c)
  }

  /** A setup under the key of `c` was entered, and none under that key has closed since. */
  predicate KeyHeld(cfg: Config, states: seq<State>, ops: seq<Op>, n: nat, c: Candidate)
    requires |states| == |ops| + 1 && n <= |ops|
  {
    exists i: nat :: i < n && EntersKey(cfg, states, ops, i, c) && NoCloseSince(cfg, ops, i, n, c)
  }

  predicate NoCloseSince(cfg: Config, ops: seq<Op>, i: nat, n: nat, c: Candidate)
    requires n <= |ops|
  {
    forall j: nat :: i < j < n ==> !ClosesKey(cfg, ops, j, c)
  }

  lemma KeysAreFields(a: Candidate, b: Candidate, multiTf: bool)
    ensures ZoneOf(a) == ZoneOf(b) <==> SameZone(a, b)
    ensures RejectionOf(a) == RejectionOf(b) <==> SameRejection(a, b)
    ensures LockOf(a, multiTf) == LockOf(b, multiTf) <==> SameKey(a, b, multiTf)
  {}

  lemma UsesGrow(cfg: Config, states: seq<State>, ops: seq<Op>, n: nat, c: Candidate)
    requires |states| == |ops| + 1 && n < |ops|
    ensures |ZoneUses(cfg, states, ops, n + 1, c)|
         == |ZoneUses(cfg, states, ops, n, c)| + if EntersZone(cfg, states, ops, n, c) then 1 else 0
    ensures RejectionUsed(cfg, states, ops, n + 1, c)
       <==> RejectionUsed(cfg, states, ops, n, c) || EntersRejection(cfg, states, ops, n, c)
  {
    hide EntersZone, EntersRejection;
    var before, after := ZoneUses(cfg, states, ops, n, c), ZoneUses(cfg, states, ops, n + 1, c);
    assert n !in before;
    assert after == before + if EntersZone(cfg, states, ops, n, c) then {n} else {};
    if RejectionUsed(cfg, states, ops, n + 1, c) {
      var i: nat :| i < n + 1 && EntersRejection(cfg, states, ops, i, c);
      assert i < n || i == n;
    }
  }

  lemma HoldChanges(cfg: Config, states: seq<State>, ops: seq<Op>, n: nat, c: Candidate)
    requires |states| == |ops| + 1 && n < |ops|
    ensures KeyHeld(cfg, states, ops, n + 1, c)
       <==> EntersKey(cfg, states, ops, n, c) || (KeyHeld(cfg, states, ops, n, c) && !ClosesKey(cfg, ops, n, c))
  {
    hide EntersKey, ClosesKey;
    if EntersKey(cfg, states, ops, n, c) {
      assert NoCloseSince(cfg, ops, n, n + 1, c);
    } else {
      if KeyHeld(cfg, states, ops, n + 1, c) {
        var i: nat :| i < n + 1 && EntersKey(cfg, states, ops, i, c)
                      && NoCloseSince(cfg, ops, i, n + 1, c);
        assert i < n && NoCloseSince(cfg, ops, i, n, c);
      }
      if KeyHeld(cfg, states, ops, n, c) && !ClosesKey(cfg, ops, n, c) {
        var i: nat :| i < n && EntersKey(cfg, states, ops, i, c) && NoCloseSince(cfg, ops, i, n, c);
        assert NoCloseSince(cfg, ops, i, n + 1, c);
      }
    }
  }

  /** After any run, the dedup books say of every setup what the ledger says. */
  lemma {:induction false} BooksFollowLedger(cfg: Config, states: seq<State>, ops: seq<Op>, n: nat, c: Candidate)
    requires cfg.maxLosses >= 1 && IsTrace(cfg, states, ops) && n < |states|
    ensures CountOf(states[n].counts, ZoneOf(c)) == |ZoneUses(cfg, states, ops, n, c)|
    ensures RejectionOf(c) in states[n].seen <==> RejectionUsed(cfg, states, ops, n, c)
    ensures LockOf(c, cfg.multiTf) in states[n].open <==> KeyHeld(cfg, states, ops, n, c)
  {
    hide Sound, After, ZoneOf, RejectionOf, LockOf, SameZone, SameRejection, SameKey, ZoneUses, RejectionUsed, KeyHeld, Answer;
    if n == 0 {
      NothingEntered(cfg, states, ops, c);
    } else {
      BooksFollowLedger(cfg, states, ops, n - 1, c);
      TraceStaysSound(cfg, states, ops, n - 1);
      StepBooks(states[n - 1], cfg, ops[n - 1]);
      UsesGrow(cfg, states, ops, n - 1, c);
      HoldChanges(cfg, states, ops, n - 1, c);
      if ops[n - 1].Close? {
        KeysAreFields(ops[n - 1].rec.setup, c, cfg.multiTf);
      } else {
        KeysAreFields(ops[n - 1].c, c, cfg.multiTf);
      }
    }
  }

  lemma NothingEntered(cfg: Config, states: seq<State>, ops: seq<Op>, c: Candidate)
    requires |states| == |ops| + 1
    ensures ZoneUses(cfg, states, ops, 0, c) == {} && !RejectionUsed(cfg, states, ops, 0, c) && !KeyHeld(cfg, states, ops, 0, c)
  {}

  /** A pause that ends at zero is taken for none. */
  predicate Pauses(pause: Option<int>, now: int) {
    pause.Some? && pause.value != 0 && now < pause.value
  }

  /**
   What the session answers to any offer after any run: the first refusal that applies, each told from the
   signals entered and closed before, and `Allowed` exactly when none does.
   */
  lemma OfferAnswered(cfg: Config, states: seq<State>, ops: seq<Op>, n: nat, c: Candidate, now: int, records: seq<Record>, wall: int)
    requires cfg.maxLosses >= 1 && IsTrace(cfg, states, ops) && n < |states|
    ensures Answer(states[n], cfg, c, now, records, wall)
         == if Pauses(Rolled(states[n], cfg, now, records, wall).pausedUntil, now) then Paused
            else if KeyHeld(cfg, states, ops, n, c) then PositionOpen
            else if |ZoneUses(cfg, states, ops, n, c)| >= cfg.maxSignals then ZoneLimit
            else if c.rejTs + cfg.staleMs(c.ltf) < now then StaleRejection
            else if RejectionUsed(cfg, states, ops, n, c) then SeenRejection
            else Allowed
  {
    var s := states[n];
    TraceStaysSound(cfg, states, ops, n);
    BooksFollowLedger(cfg, states, ops, n, c);
    RolledKeepsSound(s, cfg, now, records, wall);
    RolledKeepsBooks(s, cfg, now, records, wall);
    NeverCrashes(records, cfg);
    hide Rolled, ZoneUses, RejectionUsed, KeyHeld, LoadCrashes, IsTrace, Released, Streak, LastLoss;
    ReleasesNothing(Rolled(s, cfg, now, records, wall), cfg, now);
  }

  lemma NeverCrashes(records: seq<Record>, cfg: Config)
    requires cfg.maxLosses >= 1
    ensures !LoadCrashes(records, cfg)
  {
    hide Streak;
  }

  // ----- What pauses -----

  /** From `w` on no trade was won, and `w` is the start or right after a win. */
  predicate SinceWin(h: seq<Record>, w: nat) {
    && w <= |h| && (w > 0 ==> h[w - 1].outcome == L.WinFull || h[w - 1].outcome == L.BreakEven)
    && forall i :: w <= i < |h| ==> h[i].outcome != L.WinFull && h[i].outcome != L.BreakEven
  }

  function LossesFrom(h: seq<Record>, w: nat): set<nat> {
    set i: nat | w <= i < |h| && h[i].outcome == L.Loss
  }

  lemma {:induction false} StreakIsLossesSinceWin(h: seq<Record>) returns (w: nat)
    ensures SinceWin(h, w) && Streak(h) == |LossesFrom(h, w)|
  {
    w := 0;
    if h != [] {
      var m := |h| - 1;
      w := StreakIsLossesSinceWin(h[..m]);
      LossesGrow(h, w);
      if IsWin(h[m].outcome) {
        w := |h|;
        assert LossesFrom(h, w) == {};
      }
    }
  }

  lemma LossesGrow(h: seq<Record>, w: nat)
    requires h != [] && w < |h|
    ensures |LossesFrom(h, w)| == |LossesFrom(h[..|h| - 1], w)| + if h[|h| - 1].outcome == L.Loss then 1 else 0
  {
    var m := |h| - 1;
    var before := LossesFrom(h[..m], w);
    assert m !in before;
    assert LossesFrom(h, w) == before + if h[m].outcome == L.Loss then {m} else {};
  }

  lemma SinceWinIsUnique(h: seq<Record>, v: nat, w: nat)
    requires SinceWin(h, v) && SinceWin(h, w)
    ensures v == w
  {}

  /** Record `i` is the newest loss, with no win after it. */
  predicate StandingLoss(h: seq<Record>, i: nat) {
    && i < |h| && h[i].outcome == L.Loss
    && forall j :: i < j < |h| ==> h[j].outcome != L.Loss && h[j].outcome != L.WinFull && h[j].outcome != L.BreakEven
  }

  lemma {:induction false} LastLossStands(h: seq<Record>) returns (i: nat)
    ensures LastLoss(h).Some? ==> i < |h| && StandingLoss(h, i) && LastLoss(h) == Some(h[i].closedAt)
  {
    i := 0;
    if h != [] {
      var m := |h| - 1;
      if h[m].outcome == L.Loss {
        i := m;
      } else {
        i := LastLossStands(h[..m]);
      }
    }
  }

  /** Enough losses since the last win, and the newest of them not further back than the pause lasts. */
  ghost predicate EarnsPause(h: seq<Record>, cfg: Config, wall: int, until: int) {
    exists w: nat, i: nat ::
      && SinceWin(h, w) && |LossesFrom(h, w)| >= cfg.maxLosses
      && i < |h| && StandingLoss(h, i) && until == h[i].closedAt + cfg.pauseMs && until > wall
  }

  /** Recording an outcome leaves a pause until `until` standing exactly when the newest records earn it. */
  lemma OutcomePausesIff(s: State, cfg: Config, rec: Record, wall: int, until: int)
    requires cfg.maxLosses >= 1
    ensures Recorded(s, cfg, rec, wall).history == Newest(s.history + [rec])
    ensures Recorded(s, cfg, rec, wall).pausedUntil == Some(until) <==> EarnsPause(Newest(s.history + [rec]), cfg, wall, until)
  {
    hide Streak, LastLoss, Newest, SinceWin, LossesFrom, StandingLoss;
    var h := Newest(s.history + [rec]);
    var w := StreakIsLossesSinceWin(h);
    var i := LastLossStands(h);
    if EarnsPause(h, cfg, wall, until) {
      var v: nat, k: nat :| SinceWin(h, v) && |LossesFrom(h, v)| >= cfg.maxLosses
                            && k < |h| && StandingLoss(h, k) && until == h[k].closedAt + cfg.pauseMs && until > wall;
      SinceWinIsUnique(h, v, w);
      StandingLossIsUnique(h, i, k);
    }
  }

  lemma StandingLossIsUnique(h: seq<Record>, i: nat, k: nat)
    requires StandingLoss(h, i) && StandingLoss(h, k)
    ensures i == k
  {}
}
