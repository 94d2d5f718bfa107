/**
 The session coordinator (src/app/session/coordinator.py) over the dedup rules of
 src/domain/signals/dedup.py: loss-streak pause, day rollover, zone limits and direction locks.
 */
module Session {
  import opened Domain
  import L = Lifecycle

  const WINDOW: nat := 500
  const DAY_MS: int := 86_400_000

  datatype Zone = Zone(symbol: string, htf: string, ltf: string, htfTs: int, direction: Direction)
  datatype Rejection = Rejection(symbol: string, htf: string, ltf: string, rejTs: int)
  datatype Lock = Lock(symbol: string, direction: Direction, htf: string, ltf: string)

  /** A setup offered for emission; a closed record carries the same structural keys. */
  datatype Candidate = Candidate(symbol: string, direction: Direction, htf: string, ltf: string, htfTs: int, rejTs: int)
  datatype Record = Record(setup: Candidate, outcome: L.Outcome, closedAt: int)

  datatype Config = Config(maxLosses: int, pauseMs: int, multiTf: bool, maxSignals: int, staleMs: string -> int)

  datatype State = State(
    day: int, history: seq<Record>, pausedUntil: Option<int>,
    dead: set<Zone>, counts: map<Zone, int>, open: map<Lock, Option<int>>, seen: set<Rejection>)

  datatype Decision = Allowed | Paused | PositionOpen | ZoneLimit | StaleRejection | SeenRejection | Crashed

  function ZoneOf(c: Candidate): Zone { Zone(c.symbol, c.htf, c.ltf, c.htfTs, c.direction) }

  function RejectionOf(c: Candidate): Rejection { Rejection(c.symbol, c.htf, c.ltf, c.rejTs) }

  function LockOf(c: Candidate, multiTf: bool): Lock {
    if multiTf then Lock(c.symbol, c.direction, c.htf, c.ltf) else Lock(c.symbol, c.direction, "", "")
  }

  function Day(ts: int): int { ts / DAY_MS }

  function CountOf(counts: map<Zone, int>, z: Zone): int {
    if z in counts then counts[z] else 0
  }

  function Newest(h: seq<Record>): (r: seq<Record>)
    ensures |r| <= WINDOW
  {
    if |h| <= WINDOW then h else h[|h| - WINDOW..]
  }

  lemma FewAreAllNewest(h: seq<Record>)
    requires |h| <= WINDOW
    ensures Newest(h) == h
  {}

  /** Appending one by one within the bound keeps the newest of all. */
  lemma NewestOfNewest(h: seq<Record>, r: Record)
    ensures Newest(Newest(h) + [r]) == Newest(h + [r])
  {}

  // ----- The loss streak -----

  predicate IsWin(o: L.Outcome) { o == L.WinFull || o == L.BreakEven }

  /** The forward counter: a loss adds one, a win resets, a void leaves it alone. */
  function Streak(h: seq<Record>): nat {
    if h == [] then 0
    else
      var before, last := Streak(h[..|h| - 1]), h[|h| - 1].outcome;
      if last == L.Loss then before + 1 else if IsWin(last) then 0 else before
  }

  /** The closing time of the newest loss since the last win. */
  function LastLoss(h: seq<Record>): (r: Option<int>)
    ensures r == None <==> Streak(h) == 0
  {
    if h == [] then None
    else
      var last := h[|h| - 1];
      if last.outcome == L.Loss then Some(last.closedAt)
      else if IsWin(last.outcome) then None
      else LastLoss(h[..|h| - 1])
  }

  predicate HasWin(h: seq<Record>) {
    exists i :: 0 <= i < |h| && IsWin(h[i].outcome)
  }

  lemma {:induction false} StreakSplits(earlier: seq<Record>, recent: seq<Record>)
    ensures Streak(earlier + recent) == Streak(recent) + (if HasWin(recent) then 0 else Streak(earlier))
  {
    if recent == [] {
      assert earlier + recent == earlier;
    } else {
      var n := |recent| - 1;
      StreakSplits(earlier, recent[..n]);
      assert (earlier + recent)[..|earlier + recent| - 1] == earlier + recent[..n];
      assert HasWin(recent[..n]) ==> HasWin(recent);
      assert HasWin(recent) && !IsWin(recent[n].outcome) ==> HasWin(recent[..n]) by {
        if HasWin(recent) && !IsWin(recent[n].outcome) {
          var i :| 0 <= i < |recent| && IsWin(recent[i].outcome);
          assert IsWin(recent[..n][i].outcome);
        }
      }
    }
  }

  /** The bounded history sees the whole streak unless losses of it are older than the window. */
  lemma WindowSeesStreak(all: seq<Record>)
    ensures Streak(Newest(all)) <= Streak(all)
    ensures Streak(Newest(all)) == Streak(all)
       <==> |all| <= WINDOW || HasWin(Newest(all)) || Streak(all[..|all| - WINDOW]) == 0
  {
    if |all| > WINDOW {
      assert all == all[..|all| - WINDOW] + Newest(all);
      StreakSplits(all[..|all| - WINDOW], Newest(all));
    }
  }

  // ----- The steps -----

  /** Whether the newest loss is looked up when there is none. */
  predicate StreakCrashes(h: seq<Record>, cfg: Config) {
    Streak(h) >= cfg.maxLosses && Streak(h) == 0
  }

  function PauseFor(h: seq<Record>, cfg: Config, wall: int): Option<int>
    requires !StreakCrashes(h, cfg)
  {
    if Streak(h) < cfg.maxLosses then None
    else
      var until := LastLoss(h).value + cfg.pauseMs;
      if until > wall then Some(until) else None
  }

  function Checked(s: State, cfg: Config, wall: int): State {
    if StreakCrashes(s.history, cfg) then s else s.(pausedUntil := PauseFor(s.history, cfg, wall))
  }

  function Loaded(s: State, cfg: Config, records: seq<Record>, wall: int): State {
    if records == [] then s else Checked(s.(history := Newest(s.history + records)), cfg, wall)
  }

  predicate LoadCrashes(records: seq<Record>, cfg: Config) {
    records != [] && StreakCrashes(Newest(records), cfg)
  }

  /** A new UTC day drops history and pause and reloads what is stored for that day. */
  function Rolled(s: State, cfg: Config, now: int, records: seq<Record>, wall: int): State {
    if Day(now) == s.day then s
    else Loaded(s.(day := Day(now), history := [], pausedUntil := None), cfg, records, wall)
  }

  predicate LockExpired(ts: Option<int>, now: int) { ts.Some? && ts.value <= now }

  function Released(s: State, now: int): State {
    s.(open := map k | k in s.open && !LockExpired(s.open[k], now) :: s.open[k])
  }

  function Judged(s: State, cfg: Config, c: Candidate, now: int): Decision {
    if s.pausedUntil.Some? && s.pausedUntil.value != 0 && now < s.pausedUntil.value then Paused
    else if LockOf(c, cfg.multiTf) in s.open then PositionOpen
    else if ZoneOf(c) in s.dead || CountOf(s.counts, ZoneOf(c)) >= cfg.maxSignals then ZoneLimit
    else if now - c.rejTs > cfg.staleMs(c.ltf) then StaleRejection
    else if RejectionOf(c) in s.seen then SeenRejection
    else Allowed
  }

  function Registered(s: State, cfg: Config, c: Candidate): State {
    var attempt := CountOf(s.counts, ZoneOf(c)) + 1;
    s.(counts := s.counts[ZoneOf(c) := attempt],
       dead := if attempt >= cfg.maxSignals then s.dead + {ZoneOf(c)} else s.dead,
       seen := s.seen + {RejectionOf(c)},
       open := s.open[LockOf(c, cfg.multiTf) := None])
  }

  function Recorded(s: State, cfg: Config, rec: Record, wall: int): State {
    Checked(s.(open := s.open - {LockOf(rec.setup, cfg.multiTf)}, history := Newest(s.history + [rec])), cfg, wall)
  }

  // ----- Runs -----

  /** `records` is what the store holds for the day of `now`; `built` says whether the setup became a signal. */
  datatype Op =
    | Offer(c: Candidate, now: int, records: seq<Record>, wall: int, built: bool)
    | Close(rec: Record, wall: int)
    | Restore(c: Candidate)

  function Gate(s: State, cfg: Config, now: int, records: seq<Record>, wall: int): State {
    Released(Rolled(s, cfg, now, records, wall), now)
  }

  function Answer(s: State, cfg: Config, c: Candidate, now: int, records: seq<Record>, wall: int): Decision {
    if Day(now) != s.day && LoadCrashes(records, cfg) then Crashed
    else Judged(Gate(s, cfg, now, records, wall), cfg, c, now)
  }

  function AfterOffer(s: State, cfg: Config, now: int, records: seq<Record>, wall: int): State {
    if Day(now) != s.day && LoadCrashes(records, cfg) then Rolled(s, cfg, now, records, wall)
    else Gate(s, cfg, now, records, wall)
  }

  predicate Emits(s: State, cfg: Config, op: Op) {
    op.Offer? && op.built && Answer(s, cfg, op.c, op.now, op.records, op.wall) == Allowed
  }

  function After(s: State, cfg: Config, op: Op): State {
    match op
    case Offer(c, now, records, wall, built) =>
      if Emits(s, cfg, op) then Registered(Gate(s, cfg, now, records, wall), cfg, c)
      else AfterOffer(s, cfg, now, records, wall)
    case Close(rec, wall) => Recorded(s, cfg, rec, wall)
    case Restore(c) => Registered(s, cfg, c)
  }

  function Run(s: State, cfg: Config, ops: seq<Op>): State
    decreases |ops|
  {
    if ops == [] then s else Run(After(s, cfg, ops[0]), cfg, ops[1..])
  }

  /** How many signals a run emits among the candidates that satisfy `p`. */
  function Emissions(s: State, cfg: Config, ops: seq<Op>, p: Candidate -> bool): nat
    decreases |ops|
  {
    if ops == [] then 0
    else (if Emits(s, cfg, ops[0]) && p(ops[0].c) then 1 else 0) + Emissions(After(s, cfg, ops[0]), cfg, ops[1..], p)
  }

  /** What every run keeps: marked zones are those at the limit, no lock carries a time, a pause is earned. */
  ghost predicate Sound(s: State, cfg: Config) {
    && (forall z :: z in s.dead <==> z in s.counts && s.counts[z] >= cfg.maxSignals)
    && (forall k :: k in s.open ==> s.open[k] == None)
    && |s.history| <= WINDOW
    && (s.pausedUntil.Some? ==>
          && Streak(s.history) >= cfg.maxLosses && Streak(s.history) > 0
          && s.pausedUntil == Some(LastLoss(s.history).value + cfg.pauseMs))
  }

  lemma CheckedKeepsSound(s: State, cfg: Config, wall: int)
    requires cfg.maxLosses >= 1
    requires Sound(s.(pausedUntil := None), cfg)
    ensures Sound(Checked(s, cfg, wall), cfg)
  {
  }

  lemma RolledKeepsSound(s: State, cfg: Config, now: int, records: seq<Record>, wall: int)
    requires cfg.maxLosses >= 1 && Sound(s, cfg)
    ensures Sound(Rolled(s, cfg, now, records, wall), cfg)
  {
    if Day(now) != s.day && records != [] {
      CheckedKeepsSound(s.(day := Day(now), history := Newest([] + records), pausedUntil := None), cfg, wall);
    }
  }

  lemma ReleasesNothing(s: State, cfg: Config, now: int)
    requires Sound(s, cfg)
    ensures Released(s, now) == s
  {
    assert Released(s, now).open == s.open;
  }

  lemma RegisteredKeepsSound(s: State, cfg: Config, c: Candidate)
    requires Sound(s, cfg)
    ensures Sound(Registered(s, cfg, c), cfg)
  {
    hide Streak, LastLoss;
  }

  lemma AfterKeepsSound(s: State, cfg: Config, op: Op)
    requires cfg.maxLosses >= 1 && Sound(s, cfg)
    ensures Sound(After(s, cfg, op), cfg)
  {
    match op
    case Offer(c, now, records, wall, built) =>
      RolledKeepsSound(s, cfg, now, records, wall);
      var rolled := Rolled(s, cfg, now, records, wall);
      hide Sound, Rolled;
      ReleasesNothing(rolled, cfg, now);
      RegisteredKeepsSound(rolled, cfg, c);
    case Close(rec, wall) =>
      CheckedKeepsSound(s.(open := s.open - {LockOf(rec.setup, cfg.multiTf)}, history := Newest(s.history + [rec])), cfg, wall);
    case Restore(c) => RegisteredKeepsSound(s, cfg, c);
  }

  lemma {:induction false} RunsStaySound(s: State, cfg: Config, ops: seq<Op>)
    requires cfg.maxLosses >= 1 && Sound(s, cfg)
    ensures Sound(Run(s, cfg, ops), cfg)
    decreases |ops|
  {
    hide Sound, After;
    if ops != [] {
      AfterKeepsSound(s, cfg, ops[0]);
      RunsStaySound(After(s, cfg, ops[0]), cfg, ops[1..]);
    }
  }

  // ----- Limits over whole runs -----

  /** What a step does to the dedup books. */
  lemma StepBooks(s: State, cfg: Config, op: Op)
    requires cfg.maxLosses >= 1 && Sound(s, cfg)
    ensures var t := After(s, cfg, op);
      && (op.Restore? || Emits(s, cfg, op) ==>
            && t.counts == s.counts[ZoneOf(op.c) := CountOf(s.counts, ZoneOf(op.c)) + 1]
            && t.seen == s.seen + {RejectionOf(op.c)}
            && t.open == s.open[LockOf(op.c, cfg.multiTf) := None])
      && (op.Offer? && !Emits(s, cfg, op) ==> t.counts == s.counts && t.seen == s.seen && t.open == s.open)
      && (op.Close? ==> t.counts == s.counts && t.seen == s.seen
                        && t.open == s.open - {LockOf(op.rec.setup, cfg.multiTf)})
    ensures Emits(s, cfg, op) ==>
      && CountOf(s.counts, ZoneOf(op.c)) < cfg.maxSignals
      && RejectionOf(op.c) !in s.seen && LockOf(op.c, cfg.multiTf) !in s.open
      && op.now - op.c.rejTs <= cfg.staleMs(op.c.ltf)
  {
    match op
    case Offer(c, now, records, wall, built) =>
      RolledKeepsSound(s, cfg, now, records, wall);
      RolledKeepsBooks(s, cfg, now, records, wall);
      hide Sound, Rolled, LoadCrashes;
      ReleasesNothing(Rolled(s, cfg, now, records, wall), cfg, now);
    case Close(rec, wall) =>
    case Restore(c) =>
  }

  /** Zone counts, limited zones, used rejections and direction locks survive midnight. */
  lemma RolledKeepsBooks(s: State, cfg: Config, now: int, records: seq<Record>, wall: int)
    ensures var t := Rolled(s, cfg, now, records, wall);
            t.dead == s.dead && t.counts == s.counts && t.open == s.open && t.seen == s.seen
  {
    hide Streak, LastLoss;
  }

  function Room(s: State, cfg: Config, z: Zone): nat {
    if CountOf(s.counts, z) < cfg.maxSignals then cfg.maxSignals - CountOf(s.counts, z) else 0
  }

  /** A zone emits at most its remaining number of signals, over any run, days and restarts of locks included. */
  lemma {:induction false} ZoneEmitsAtMostItsLimit(s: State, cfg: Config, ops: seq<Op>, z: Zone)
    requires cfg.maxLosses >= 1 && Sound(s, cfg)
    ensures Emissions(s, cfg, ops, c => ZoneOf(c) == z) <= Room(s, cfg, z)
    decreases |ops|
  {
    if ops != [] {
      StepBooks(s, cfg, ops[0]);
      AfterKeepsSound(s, cfg, ops[0]);
      hide Sound, After, Emits;
      ZoneEmitsAtMostItsLimit(After(s, cfg, ops[0]), cfg, ops[1..], z);
    }
  }

  /** A rejection candle fires at most once, and never again once used. */
  lemma {:induction false} RejectionFiresOnce(s: State, cfg: Config, ops: seq<Op>, r: Rejection)
    requires cfg.maxLosses >= 1 && Sound(s, cfg)
    ensures Emissions(s, cfg, ops, c => RejectionOf(c) == r) <= if r in s.seen then 0 else 1
    decreases |ops|
  {
    if ops != [] {
      StepBooks(s, cfg, ops[0]);
      AfterKeepsSound(s, cfg, ops[0]);
      hide Sound, After, Emits;
      RejectionFiresOnce(After(s, cfg, ops[0]), cfg, ops[1..], r);
    }
  }

  predicate NeverCloses(ops: seq<Op>, cfg: Config, k: Lock) {
    forall op <- ops :: op.Close? ==> LockOf(op.rec.setup, cfg.multiTf) != k
  }

  /** Only a close frees a direction: without one a run emits at most one signal under its key. */
  lemma {:induction false} DirectionHeldUntilClosed(s: State, cfg: Config, ops: seq<Op>, k: Lock)
    requires cfg.maxLosses >= 1 && Sound(s, cfg) && NeverCloses(ops, cfg, k)
    ensures Emissions(s, cfg, ops, c => LockOf(c, cfg.multiTf) == k) <= if k in s.open then 0 else 1
    decreases |ops|
  {
    if ops != [] {
      StepBooks(s, cfg, ops[0]);
      AfterKeepsSound(s, cfg, ops[0]);
      assert ops[0] in ops;
      assert forall op <- ops[1..] :: op in ops;
      hide Sound, After, Emits;
      DirectionHeldUntilClosed(After(s, cfg, ops[0]), cfg, ops[1..], k);
    }
  }

  // ----- The pause -----

  predicate IsVoid(o: L.Outcome) {
    o == L.Invalid || o == L.TimedOut
  }

  /** The oldest record of a full history is a loss of a streak that just reaches the limit. */
  predicate LosesItsOldest(h: seq<Record>, cfg: Config) {
    |h| == WINDOW && h[0].outcome == L.Loss && !HasWin(h[1..]) && Streak(h) == cfg.maxLosses
  }

  /** Whether recording an outcome lifts a standing pause, from what is known before the call. */
  predicate Lifts(s: State, cfg: Config, rec: Record, wall: int)
    requires s.pausedUntil.Some?
  {
    || IsWin(rec.outcome)
    || (rec.outcome == L.Loss && rec.closedAt + cfg.pauseMs <= wall)
    || (IsVoid(rec.outcome) && (s.pausedUntil.value <= wall || LosesItsOldest(s.history, cfg)))
  }

  lemma StreakOfNext(h: seq<Record>, rec: Record)
    ensures Streak(h + [rec])
         == if rec.outcome == L.Loss then Streak(h) + 1 else if IsWin(rec.outcome) then 0 else Streak(h)
    ensures rec.outcome == L.Loss ==> LastLoss(h + [rec]) == Some(rec.closedAt)
    ensures IsVoid(rec.outcome) ==> LastLoss(h + [rec]) == LastLoss(h)
  {
    assert (h + [rec])[..|h|] == h;
  }

  /** Dropping the oldest record of a history costs the streak one loss exactly if that loss is part of it. */
  lemma StreakOfRest(h: seq<Record>)
    requires h != []
    ensures Streak(h) == Streak(h[1..]) + if h[0].outcome == L.Loss && !HasWin(h[1..]) then 1 else 0
    ensures Streak(h[1..]) > 0 ==> LastLoss(h) == LastLoss(h[1..])
  {
    assert h == [h[0]] + h[1..];
    StreakSplits([h[0]], h[1..]);
    assert [h[0]][..0] == [];
    if Streak(h[1..]) > 0 { LastLossOfRest([h[0]], h[1..]); }
  }

  lemma {:induction false} LastLossOfRest(earlier: seq<Record>, recent: seq<Record>)
    requires Streak(recent) > 0
    ensures LastLoss(earlier + recent) == LastLoss(recent)
  {
    var n := |recent| - 1;
    assert (earlier + recent)[..|earlier + recent| - 1] == earlier + recent[..n];
    if IsVoid(recent[n].outcome) { LastLossOfRest(earlier, recent[..n]); }
  }

  /** The streak and the newest loss after one more record in the bounded history. */
  lemma BoundedNext(h: seq<Record>, rec: Record)
    requires |h| <= WINDOW
    ensures var lost := if |h| == WINDOW && h[0].outcome == L.Loss && !HasWin(h[1..]) then 1 else 0;
            && (rec.outcome == L.Loss ==>
                  Streak(Newest(h + [rec])) == Streak(h) - lost + 1 && LastLoss(Newest(h + [rec])) == Some(rec.closedAt))
            && (IsWin(rec.outcome) ==> Streak(Newest(h + [rec])) == 0)
            && (IsVoid(rec.outcome) ==>
                  && Streak(Newest(h + [rec])) == Streak(h) - lost
                  && (Streak(h) > lost ==> LastLoss(Newest(h + [rec])) == LastLoss(h)))
  {
    hide Streak, LastLoss;
    if |h| < WINDOW {
      StreakOfNext(h, rec);
    } else {
      assert Newest(h + [rec]) == h[1..] + [rec];
      StreakOfNext(h[1..], rec);
      StreakOfRest(h);
    }
  }

  /** A standing pause is lifted by an outcome exactly as `Lifts` says. */
  lemma PauseLiftedIff(s: State, cfg: Config, rec: Record, wall: int)
    requires cfg.maxLosses >= 1 && Sound(s, cfg) && s.pausedUntil.Some?
    ensures Recorded(s, cfg, rec, wall).pausedUntil == None <==> Lifts(s, cfg, rec, wall)
  {
    hide Streak, LastLoss, Newest, HasWin;
    BoundedNext(s.history, rec);
  }

  /** A void outcome lifts a pause that could still run exactly when it pushes out a loss the limit needs. */
  lemma VoidLiftsPauseIff(s: State, cfg: Config, void: Record, wall: int)
    requires cfg.maxLosses >= 1 && Sound(s, cfg) && s.pausedUntil.Some? && IsVoid(void.outcome)
    ensures Recorded(s, cfg, void, wall).pausedUntil == None
       <==> || s.pausedUntil.value <= wall
            || (|s.history| == WINDOW && s.history[0].outcome == L.Loss && !HasWin(s.history[1..])
                && Streak(s.history) == cfg.maxLosses)
  {
    PauseLiftedIff(s, cfg, void, wall);
  }

  /** Nothing in a run ends the pause: offers come on its day and before its end, and no outcome lifts it. */
  predicate PauseHolds(s: State, cfg: Config, ops: seq<Op>)
    decreases |ops|
  {
    ops != [] ==>
      && s.pausedUntil.Some?
      && (match ops[0]
          case Offer(_, now, _, _, _) => Day(now) == s.day && s.pausedUntil.value != 0 && now < s.pausedUntil.value
          case Close(rec, wall) => !Lifts(s, cfg, rec, wall)
          case Restore(_) => true)
      && PauseHolds(After(s, cfg, ops[0]), cfg, ops[1..])
  }

  /** One step under a pause; on its day an offer is refused for it exactly while it has not ended. */
  lemma PauseStep(s: State, cfg: Config, op: Op)
    requires cfg.maxLosses >= 1 && Sound(s, cfg) && s.pausedUntil.Some?
    ensures op.Offer? && Day(op.now) == s.day ==>
      && (Answer(s, cfg, op.c, op.now, op.records, op.wall) == Paused
          <==> s.pausedUntil.value != 0 && op.now < s.pausedUntil.value)
      && After(s, cfg, op).pausedUntil == s.pausedUntil
    ensures op.Close? ==> (After(s, cfg, op).pausedUntil.Some? <==> !Lifts(s, cfg, op.rec, op.wall))
    ensures op.Restore? ==> After(s, cfg, op).pausedUntil == s.pausedUntil
  {
    if op.Close? { PauseLiftedIff(s, cfg, op.rec, op.wall); }
    hide Streak, LastLoss, Newest, HasWin, Lifts;
  }

  /** While the pause stands within one UTC day, no offer is allowed. */
  lemma {:induction false} NoSignalWhilePaused(s: State, cfg: Config, ops: seq<Op>)
    requires cfg.maxLosses >= 1 && Sound(s, cfg) && s.pausedUntil.Some? && PauseHolds(s, cfg, ops)
    ensures Emissions(s, cfg, ops, c => true) == 0
    ensures Run(s, cfg, ops).pausedUntil.Some?
    decreases |ops|
  {
    hide Sound, After, Answer, Lifts;
    if ops != [] {
      PauseStep(s, cfg, ops[0]);
      AfterKeepsSound(s, cfg, ops[0]);
      NoSignalWhilePaused(After(s, cfg, ops[0]), cfg, ops[1..]);
    }
  }

  /** The newest loss is missing exactly when the limit is not positive and no loss stands. */
  lemma CrashesOnlyWithoutLimit(h: seq<Record>, cfg: Config)
    ensures StreakCrashes(h, cfg) <==> cfg.maxLosses <= 0 && LastLoss(h) == None
  {
  }

  /** The first offer of a new day is judged without the old pause; one remains exactly when the day's own records earn it. */
  lemma MidnightDropsPause(s: State, cfg: Config, now: int, records: seq<Record>, wall: int)
    requires Day(now) != s.day && !LoadCrashes(records, cfg)
    ensures Gate(s, cfg, now, records, wall).pausedUntil
         == if records == [] then None else PauseFor(Newest(records), cfg, wall)
    ensures Gate(s, cfg, now, records, wall).history == Newest(records)
  {
    assert [] + records == records;
    hide Streak, LastLoss;
  }

  function LossesThenVoids(loss: Record, void: Record, n: nat, m: nat): seq<Record> {
    seq(n, _ => loss) + seq(m, _ => void)
  }

  /** Losses as many as the limit, then voids filling the window: one more void pushes a loss out and lifts the pause. */
  lemma VoidCanLiftPause(s: State, cfg: Config, loss: Record, void: Record, wall: int)
    requires 1 <= cfg.maxLosses <= WINDOW && loss.outcome == L.Loss && void.outcome == L.TimedOut
    requires s.history == LossesThenVoids(loss, void, cfg.maxLosses, WINDOW - cfg.maxLosses)
    requires loss.closedAt + cfg.pauseMs > wall
    ensures PauseFor(s.history, cfg, wall) == Some(loss.closedAt + cfg.pauseMs)
    ensures Recorded(s, cfg, void, wall).pausedUntil == None
  {
    hide Streak, LastLoss, Newest, LossesThenVoids, LockOf;
    var n, m := cfg.maxLosses, WINDOW - cfg.maxLosses;
    VoidsKeepStreak(loss, void, n, m);
    VoidsKeepStreak(loss, void, n - 1, m + 1);
    OldestLossLeaves(loss, void, n, m);
  }

  lemma OldestLossLeaves(loss: Record, void: Record, n: nat, m: nat)
    requires n > 0 && n + m == WINDOW
    ensures Newest(LossesThenVoids(loss, void, n, m) + [void]) == LossesThenVoids(loss, void, n - 1, m + 1)
  {
    var h := LossesThenVoids(loss, void, n, m) + [void];
    assert |h| == WINDOW + 1 && Newest(h) == h[1..];
  }

  lemma {:induction false} VoidsKeepStreak(loss: Record, void: Record, n: nat, m: nat)
    requires loss.outcome == L.Loss && void.outcome == L.TimedOut
    ensures var h := LossesThenVoids(loss, void, n, m);
            Streak(h) == n && LastLoss(h) == if n == 0 then None else Some(loss.closedAt)
  {
    var h := LossesThenVoids(loss, void, n, m);
    if m > 0 {
      VoidsKeepStreak(loss, void, n, m - 1);
      assert h[..|h| - 1] == LossesThenVoids(loss, void, n, m - 1);
    } else if n > 0 {
      VoidsKeepStreak(loss, void, n - 1, 0);
      assert h[..|h| - 1] == LossesThenVoids(loss, void, n - 1, 0);
    }
  }

  // ----- The coordinator -----

  /** The backward loop with its break. */
  method ConsecutiveLosses(h: seq<Record>) returns (count: nat)
    ensures count == Streak(h)
  {
    count := 0;
    var i := |h|;
    assert h[..i] == h;
    while i > 0
      invariant 0 <= i <= |h|
      invariant Streak(h) == count + Streak(h[..i])
    {
      assert h[..i][..i - 1] == h[..i - 1];
      i := i - 1;
      if h[i].outcome == L.Loss {
        count := count + 1;
      } else if IsWin(h[i].outcome) {
        break;
      }
    }
  }

  /** The losses of the running streak, newest first. */
  method StreakRecords(h: seq<Record>) returns (records: seq<Record>)
    ensures |records| == Streak(h)
    ensures records != [] ==> LastLoss(h) == Some(records[0].closedAt)
  {
    records := [];
    var i := |h|;
    assert h[..i] == h;
    while i > 0
      invariant 0 <= i <= |h|
      invariant Streak(h) == |records| + Streak(h[..i])
      invariant LastLoss(h) == if records == [] then LastLoss(h[..i]) else Some(records[0].closedAt)
    {
      assert h[..i][..i - 1] == h[..i - 1];
      i := i - 1;
      if h[i].outcome == L.Loss {
        records := records + [h[i]];
      } else if IsWin(h[i].outcome) {
        break;
      }
    }
  }

  class SessionCoordinator {
    const cfg: Config
    var sessionDay: int
    var history: seq<Record>
    var pausedUntil: Option<int>
    var deadZones: set<Zone>
    var zoneCounts: map<Zone, int>
    var openDir: map<Lock, Option<int>>
    var seenRej: set<Rejection>

    ghost function Book(): State
      reads this
    {
      State(sessionDay, history, pausedUntil, deadZones, zoneCounts, openDir, seenRej)
    }

    constructor (cfg: Config, wall: int)
      ensures this.cfg == cfg && Book() == State(Day(wall), [], None, {}, map[], map[], {})
      ensures Sound(Book(), cfg)
    {
      this.cfg := cfg;
      sessionDay, history, pausedUntil := Day(wall), [], None;
      deadZones, zoneCounts, openDir, seenRej := {}, map[], map[], {};
    }

    method CheckStreak(wall: int) returns (crashed: bool)
      modifies this`pausedUntil
      ensures crashed == StreakCrashes(history, cfg)
      ensures Book() == Checked(old(Book()), cfg, wall)
    {
      var cl := ConsecutiveLosses(history);
      if cl < cfg.maxLosses {
        pausedUntil := None;
        return false;
      }
      var streak := StreakRecords(history);
      if streak == [] { return true; }
      var until := streak[0].closedAt + cfg.pauseMs;
      pausedUntil := if until > wall then Some(until) else None;
      crashed := false;
    }

    /** The day's stored records, read back one by one. */
    method LoadSession(records: seq<Record>, wall: int) returns (crashed: bool)
      requires history == []
      modifies this`history, this`pausedUntil
      ensures crashed == LoadCrashes(records, cfg)
      ensures Book() == Loaded(old(Book()), cfg, records, wall)
    {
      hide Newest;
      if records == [] { return false; }
      FewAreAllNewest([]);
      var i := 0;
      while i < |records|
        invariant 0 <= i <= |records|
        invariant history == Newest(records[..i])
        invariant Book() == old(Book()).(history := history)
      {
        assert records[..i + 1] == records[..i] + [records[i]];
        NewestOfNewest(records[..i], records[i]);
        history := Newest(history + [records[i]]);
        i := i + 1;
      }
      assert records[..i] == records && [] + records == records;
      crashed := CheckStreak(wall);
    }

    /** A reload that fails leaves the new day, its history and no pause behind. */
    method MaybeRollover(now: int, records: seq<Record>, wall: int) returns (crashed: bool)
      modifies this`sessionDay, this`history, this`pausedUntil
      ensures crashed == (Day(now) != old(sessionDay) && LoadCrashes(records, cfg))
      ensures Book() == Rolled(old(Book()), cfg, now, records, wall)
    {
      if Day(now) == sessionDay { return false; }
      sessionDay := Day(now);
      history := [];
      pausedUntil := None;
      crashed := LoadSession(records, wall);
    }

    method ReleaseExpiredDirections(now: int)
      modifies this`openDir
      ensures Book() == Released(old(Book()), now)
    {
      var expired := set k | k in openDir && LockExpired(openDir[k], now);
      openDir := openDir - expired;
      assert openDir == Released(old(Book()), now).open;
    }

    method ShouldEmit(c: Candidate, now: int, records: seq<Record>, wall: int) returns (decision: Decision)
      modifies this`sessionDay, this`history, this`pausedUntil, this`openDir
      ensures decision == Answer(old(Book()), cfg, c, now, records, wall)
      ensures Book() == AfterOffer(old(Book()), cfg, now, records, wall)
    {
      var crashed := MaybeRollover(now, records, wall);
      if crashed { return Crashed; }
      ReleaseExpiredDirections(now);
      if pausedUntil.Some? && pausedUntil.value != 0 && now < pausedUntil.value { return Paused; }
      if LockOf(c, cfg.multiTf) in openDir { return PositionOpen; }
      var zoneCount := CountOf(zoneCounts, ZoneOf(c));
      if ZoneOf(c) in deadZones || zoneCount >= cfg.maxSignals { return ZoneLimit; }
      if now - c.rejTs > cfg.staleMs(c.ltf) { return StaleRejection; }
      if RejectionOf(c) in seenRej { return SeenRejection; }
      decision := Allowed;
    }

    method RegisterSignal(c: Candidate) returns (attempt: int)
      modifies this`zoneCounts, this`deadZones, this`seenRej, this`openDir
      ensures attempt == CountOf(zoneCounts, ZoneOf(c))
      ensures Book() == Registered(old(Book()), cfg, c)
    {
      attempt := CountOf(zoneCounts, ZoneOf(c)) + 1;
      zoneCounts := zoneCounts[ZoneOf(c) := attempt];
      if attempt >= cfg.maxSignals { deadZones := deadZones + {ZoneOf(c)}; }
      seenRej := seenRej + {RejectionOf(c)};
      openDir := openDir[LockOf(c, cfg.multiTf) := None];
    }

    method RecordOutcome(rec: Record, wall: int) returns (crashed: bool)
      modifies this`openDir, this`history, this`pausedUntil
      ensures Book() == Recorded(old(Book()), cfg, rec, wall)
      ensures crashed == StreakCrashes(history, cfg)
    {
      openDir := openDir - {LockOf(rec.setup, cfg.multiTf)};
      history := Newest(history + [rec]);
      crashed := CheckStreak(wall);
    }
  }
}
