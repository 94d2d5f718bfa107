/**
 The mutable watchlist of src/app/services/signal_service.py: signals are stepped
 in place, events are emitted in order, and closed signals leave the watchlist.
 */
module SignalService {
  import opened Domain
  import opened Lifecycle
  import opened LiveRescan

  /** An emitted event, tagged with the signal it is about. */
  type Event = (string, Notice)

  function Tag(id: string, notices: seq<Notice>): seq<Event> {
    seq(|notices|, i requires 0 <= i < |notices| => (id, notices[i]))
  }

  function Later(candles: seq<Candle>, t: int): seq<Candle> {
    if candles == [] then []
    else (if candles[0].timestamp > t then [candles[0]] else []) + Later(candles[1..], t)
  }

  /** `[c for c in candles if c.timestamp > (signal.triggered_at or 0)]`; a trigger of 0 is a missing one. */
  function AfterTrigger(candles: seq<Candle>, plan: Plan): seq<Candle> {
    Later(candles, plan.triggeredAt)
  }

  /** `signal.triggered_at or signal.created_at` */
  function ReplayFrom(plan: Plan): int {
    if plan.triggeredAt != 0 then plan.triggeredAt else plan.createdAt
  }

  /** `[c for c in candles if c.timestamp <= last_closed_open]` */
  function ClosedBy(candles: seq<Candle>, lastClosedOpen: int): seq<Candle> {
    if candles == [] then []
    else (if candles[0].timestamp <= lastClosedOpen then [candles[0]] else []) + ClosedBy(candles[1..], lastClosedOpen)
  }

  lemma {:induction false} ClosedByIsPrefix(candles: seq<Candle>, lastClosedOpen: int)
    requires IncreasingTimes(candles)
    ensures ClosedBy(candles, lastClosedOpen) <= candles
    ensures var n := |ClosedBy(candles, lastClosedOpen)|;
            forall k :: 0 <= k < |candles| ==> (k < n <==> candles[k].timestamp <= lastClosedOpen)
  {
    if candles != [] {
      ClosedByIsPrefix(candles[1..], lastClosedOpen);
      var rest := ClosedBy(candles[1..], lastClosedOpen);
      assert rest != [] ==> candles[1..][0].timestamp <= lastClosedOpen;
    }
  }

  lemma {:induction false} LaterIncreasing(candles: seq<Candle>, t: int)
    requires IncreasingTimes(candles)
    ensures IncreasingTimes(Later(candles, t))
    ensures forall c <- Later(candles, t) :: c in candles
  {
    if candles != [] {
      LaterIncreasing(candles[1..], t);
      assert forall c <- candles[1..] :: candles[0].timestamp < c.timestamp;
    }
  }

  lemma {:induction false} FiltersCommute(candles: seq<Candle>, plan: Plan, upto: int)
    ensures AfterTrigger(ClosedBy(candles, upto), plan) == ClosedBy(AfterTrigger(candles, plan), upto)
  {
    if candles != [] {
      var c, rest := candles[0], candles[1..];
      FiltersCommute(rest, plan, upto);
      assert ([c] + ClosedBy(rest, upto))[1..] == ClosedBy(rest, upto);
      assert ([c] + AfterTrigger(rest, plan))[1..] == AfterTrigger(rest, plan);
      assert [] + ClosedBy(rest, upto) == ClosedBy(rest, upto);
      assert [] + AfterTrigger(rest, plan) == AfterTrigger(rest, plan);
    }
  }

  /**
   Two updates of one growing market history feed the signal growing prefixes of
   one candle series, which is what `LiveRescan` assumes of its batches.
   */
  lemma UpdatesSeeGrowingPrefixes(history: seq<Candle>, plan: Plan, early: int, late: int)
    requires IncreasingTimes(history) && early <= late
    ensures AfterTrigger(ClosedBy(history, early), plan) <= AfterTrigger(ClosedBy(history, late), plan)
                                                          <= AfterTrigger(history, plan)
  {
    var all := AfterTrigger(history, plan);
    LaterIncreasing(history, plan.triggeredAt);
    FiltersCommute(history, plan, early);
    FiltersCommute(history, plan, late);
    ClosedByIsPrefix(all, early);
    ClosedByIsPrefix(all, late);
    var n := |ClosedBy(all, early)|;
    assert n > 0 ==> all[n - 1].timestamp <= late;
  }

  /** One open signal as a group update sees it. */
  datatype Entry = Entry(id: string, plan: Plan, prof: Profile, progress: Progress)

  datatype Group = Group(entries: seq<Entry>, events: seq<Event>, dropped: set<string>, raised: bool)

  /** One signal's scan from its trigger: what it becomes, what is sent, and whether its id leaves the watchlist. */
  datatype Own = Own(raised: bool, moved: Entry, told: seq<Event>, dropped: set<string>)

  function OwnScan(e: Entry, candles: seq<Candle>): Own {
    var s := ScanSignal(e.plan, e.prof, e.progress, AfterTrigger(candles, e.plan));
    Own(s.raised, e.(progress := s.progress), Tag(e.id, s.notices), if Closing(s.notices) then {e.id} else {})
  }

  lemma {:induction false} LaterIff(candles: seq<Candle>, t: int)
    ensures forall c :: c in Later(candles, t) <==> c in candles && c.timestamp > t
  {
    if candles != [] {
      LaterIff(candles[1..], t);
      assert candles == [candles[0]] + candles[1..];
    }
  }

  lemma {:induction false} ClosedByIff(candles: seq<Candle>, lastClosedOpen: int)
    ensures forall c :: c in ClosedBy(candles, lastClosedOpen) <==> c in candles && c.timestamp <= lastClosedOpen
  {
    if candles != [] {
      ClosedByIff(candles[1..], lastClosedOpen);
      assert candles == [candles[0]] + candles[1..];
    }
  }

  /** An update steps a signal through exactly the bars that open after its trigger and are closed by now, in order. */
  lemma UpdateStepsBars(e: Entry, history: seq<Candle>, ltfMs: int, now: int) returns (bars: seq<Candle>)
    requires IncreasingTimes(history) && ltfMs > 0
    ensures IncreasingTimes(bars)
    ensures forall c :: c in bars <==> c in history && c.timestamp > e.plan.triggeredAt && OverBy(c.timestamp, ltfMs, now)
    ensures var own, s := OwnScan(e, ClosedBy(history, LastClosedOpen(now, ltfMs))), ScanSignal(e.plan, e.prof, e.progress, bars);
            && own.raised == s.raised && own.moved == e.(progress := s.progress)
            && own.told == Tag(e.id, s.notices) && (own.dropped == {e.id} <==> Closing(s.notices))
  {
    hide ScanSignal, OverBy, LastClosedOpen, Tag, Closing;
    var closed := ClosedBy(history, LastClosedOpen(now, ltfMs));
    bars := AfterTrigger(closed, e.plan);
    ClosedByIsPrefix(history, LastClosedOpen(now, ltfMs));
    ClosedByIff(history, LastClosedOpen(now, ltfMs));
    LaterIncreasing(closed, e.plan.triggeredAt);
    LaterIff(closed, e.plan.triggeredAt);
    forall c: Candle
      ensures c.timestamp <= LastClosedOpen(now, ltfMs) <==> OverBy(c.timestamp, ltfMs, now)
    {
      OverByIff(c.timestamp, ltfMs, now);
    }
  }

  /** The signals of one timeframe in turn; an exception leaves the later ones untouched. */
  function GroupScan(entries: seq<Entry>, candles: seq<Candle>): (g: Group)
    ensures |g.entries| == |entries|
  {
    if entries == [] then Group([], [], {}, false)
    else
      var own := OwnScan(entries[0], candles);
      if own.raised then Group([own.moved] + entries[1..], own.told, own.dropped, true)
      else
        var rest := GroupScan(entries[1..], candles);
        Group([own.moved] + rest.entries, own.told + rest.events, own.dropped + rest.dropped, rest.raised)
  }

  /**
   Signals of a group do not interfere: without a malformed candle each ends where its own scan ends,
   and otherwise exactly those before the first scan that raises, and that one, have moved.
   */
  lemma {:induction false} GroupSignalsAreIndependent(entries: seq<Entry>, candles: seq<Candle>, k: nat)
    requires k < |entries|
    ensures GroupScan(entries, candles).entries[k]
         == if RaisesBefore(entries, candles, k) then entries[k] else OwnScan(entries[k], candles).moved
    ensures GroupScan(entries, candles).raised <==> RaisesBefore(entries, candles, |entries|)
  {
    hide OwnScan;
    if k > 0 {
      GroupSignalsAreIndependent(entries[1..], candles, k - 1);
    } else if |entries| > 1 {
      GroupSignalsAreIndependent(entries[1..], candles, 0);
    }
  }

  lemma {:induction false} DroppedAreNamed(entries: seq<Entry>, candles: seq<Candle>)
    ensures forall id <- GroupScan(entries, candles).dropped :: exists k :: 0 <= k < |entries| && entries[k].id == id
  {
    if entries != [] {
      DroppedAreNamed(entries[1..], candles);
      forall id | id in GroupScan(entries, candles).dropped
        ensures exists k :: 0 <= k < |entries| && entries[k].id == id
      {
        if id in OwnScan(entries[0], candles).dropped {
          assert entries[0].id == id;
        } else {
          assert id in GroupScan(entries[1..], candles).dropped;
          var k :| 0 <= k < |entries[1..]| && entries[1..][k].id == id;
          assert entries[k + 1].id == id;
        }
      }
    }
  }

  /** Of signals with different ids, exactly those that were open and no longer are leave the watchlist. */
  lemma {:induction false} OpenSignalsLeaveWhenClosed(entries: seq<Entry>, candles: seq<Candle>, k: nat)
    requires k < |entries| && Open(entries[k].progress.status)
    requires forall i, j :: 0 <= i < j < |entries| ==> entries[i].id != entries[j].id
    ensures entries[k].id in GroupScan(entries, candles).dropped
       <==> !Open(GroupScan(entries, candles).entries[k].progress.status)
  {
    hide ScanSignal, AfterTrigger, Tag, Closing;
    var e := entries[0];
    if k == 0 {
      OpenUntilClosing(e.plan, e.prof, e.progress, AfterTrigger(candles, e.plan));
      DroppedAreNamed(entries[1..], candles);
    } else {
      OpenSignalsLeaveWhenClosed(entries[1..], candles, k - 1);
    }
  }

  /** What the first `i` signals became, sent and dropped, followed by the scan of the rest unless one raised, is the whole. */
  predicate Scanned(start: seq<Entry>, candles: seq<Candle>, i: nat, done: Group)
    requires i <= |start|
  {
    var rest := if done.raised then Group(start[i..], [], {}, true) else GroupScan(start[i..], candles);
    GroupScan(start, candles)
    == Group(done.entries + rest.entries, done.events + rest.events, done.dropped + rest.dropped, rest.raised)
  }

  /** One more signal done. */
  function Extended(done: Group, own: Own): Group {
    Group(done.entries + [own.moved], done.events + own.told, done.dropped + own.dropped, own.raised)
  }

  lemma NextSignal(start: seq<Entry>, candles: seq<Candle>, i: nat, done: Group)
    requires i < |start| && Scanned(start, candles, i, done) && !done.raised
    ensures Scanned(start, candles, i + 1, Extended(done, OwnScan(start[i], candles)))
  {
    hide OwnScan;
    assert start[i..][1..] == start[i + 1..] && start[i..][0] == start[i];
  }

  const NOT_STARTED := Group([], [], {}, false)

  lemma NoneScanned(start: seq<Entry>, candles: seq<Candle>)
    ensures Scanned(start, candles, 0, NOT_STARTED)
  {
    assert start[0..] == start;
  }

  lemma AllScanned(start: seq<Entry>, candles: seq<Candle>, i: nat, done: Group)
    requires i <= |start| && Scanned(start, candles, i, done) && (done.raised || i == |start|)
    ensures GroupScan(start, candles) == done.(entries := done.entries + start[i..])
  {
    assert GroupScan(start[|start|..], candles) == NOT_STARTED;
  }

  /** Some signal among the first `k` meets a malformed candle while open. */
  predicate RaisesBefore(entries: seq<Entry>, candles: seq<Candle>, k: nat)
    requires k <= |entries|
    decreases k
  {
    k > 0 &&
    (OwnScan(entries[0], candles).raised || RaisesBefore(entries[1..], candles, k - 1))
  }

  // ----- The candle loop of one signal -----

  /** Before candle `i`: the scan of the rest from `p`, after what was sent, is the whole scan, and no close was sent. */
  predicate ScanGoesOn(plan: Plan, prof: Profile, start: Progress, candles: seq<Candle>, i: nat, p: Progress, sent: seq<Notice>)
    requires i <= |candles|
  {
    var rest := ScanSignal(plan, prof, p, candles[i..]);
    ScanSignal(plan, prof, start, candles) == rest.(notices := sent + rest.notices) && !Closing(sent)
  }

  lemma ScanBegins(plan: Plan, prof: Profile, start: Progress, candles: seq<Candle>)
    ensures ScanGoesOn(plan, prof, start, candles, 0, start, [])
    ensures forall id :: Tag(id, []) == []
  {
    assert candles[0..] == candles;
  }

  lemma ScanHead(plan: Plan, prof: Profile, p: Progress, candles: seq<Candle>, i: nat)
    requires i < |candles|
    ensures var v := Judge(plan, prof, p.status, candles[i]);
            var q := Apply(plan, prof, p, v, candles[i]);
            var here, rest := StepNotices(v, q.status), ScanSignal(plan, prof, q, candles[i + 1..]);
            && ScanSignal(plan, prof, p, candles[i..])
               == (if !WellFormed(candles[i]) then Scan(p, [], true)
                   else if !Open(q.status) then Scan(q, here, false)
                   else rest.(notices := here + rest.notices))
            && (Terminal(v) ==> !Open(q.status)) && (Open(q.status) ==> Open(p.status))
  {
    assert candles[i..][1..] == candles[i + 1..];
  }

  lemma ClosingAfter(sent: seq<Notice>, v: Verdict, status: Status)
    requires !Closing(sent)
    ensures Closing(sent + StepNotices(v, status)) <==> Terminal(v)
  {
  }

  lemma ScanStep(plan: Plan, prof: Profile, start: Progress, candles: seq<Candle>, i: nat, p: Progress, sent: seq<Notice>)
    requires i < |candles| && ScanGoesOn(plan, prof, start, candles, i, p, sent)
    ensures var v := Judge(plan, prof, p.status, candles[i]);
            var q := Apply(plan, prof, p, v, candles[i]);
            var told := sent + StepNotices(v, q.status);
            if !WellFormed(candles[i]) then
              ScanSignal(plan, prof, start, candles) == Scan(p, sent, true) && !Closing(sent)
            else if Open(q.status) then
              !Terminal(v) && Open(p.status) && ScanGoesOn(plan, prof, start, candles, i + 1, q, told)
            else
              ScanSignal(plan, prof, start, candles) == Scan(q, told, false) && (Closing(told) <==> Terminal(v))
  {
    hide ScanSignal, Judge, Apply, StepNotices, Closing, Terminal, Open;
    var v := Judge(plan, prof, p.status, candles[i]);
    var q := Apply(plan, prof, p, v, candles[i]);
    ScanHead(plan, prof, p, candles, i);
    ClosingAfter(sent, v, q.status);
    var rest := ScanSignal(plan, prof, q, candles[i + 1..]);
    assert sent + (StepNotices(v, q.status) + rest.notices) == (sent + StepNotices(v, q.status)) + rest.notices;
    assert sent + [] == sent;
  }

  lemma ScanDone(plan: Plan, prof: Profile, start: Progress, candles: seq<Candle>, p: Progress, sent: seq<Notice>)
    requires ScanGoesOn(plan, prof, start, candles, |candles|, p, sent)
    ensures ScanSignal(plan, prof, start, candles) == Scan(p, sent, false) && !Closing(sent)
  {
  }

  lemma TagMore(id: string, a: seq<Notice>, b: seq<Notice>)
    ensures Tag(id, a + b) == Tag(id, a) + Tag(id, b)
  {
  }

  /** What a status query answers; `Failed` is the exception of a malformed candle. */
  datatype StatusAnswer = NoInterval | NoCandles | Failed | Answered(progress: Progress)

  function StatusOf(plan: Plan, prof: Profile, ltfInterval: string, candles: seq<Candle>): StatusAnswer {
    if ltfInterval == "" then NoInterval
    else if candles == [] then NoCandles
    else
      match Replay(plan, prof, FRESH, Later(candles, ReplayFrom(plan)))
      case Raised => Failed
      case Finished(p) => Answered(p)
  }

  /**
   A query with an interval and candles answers one replay of a fresh signal over exactly the candles that open
   after the trigger, or after the creation when there is no trigger, in order; whatever the signal's own state.
   */
  lemma QueryReplaysBars(plan: Plan, prof: Profile, ltfInterval: string, candles: seq<Candle>) returns (bars: seq<Candle>)
    requires IncreasingTimes(candles)
    ensures IncreasingTimes(bars)
    ensures forall c :: c in bars <==> c in candles && (if plan.triggeredAt == 0 then plan.createdAt else plan.triggeredAt) < c.timestamp
    ensures var answer := StatusOf(plan, prof, ltfInterval, candles);
            && (answer == NoInterval <==> ltfInterval == "")
            && (answer == NoCandles <==> ltfInterval != "" && candles == [])
            && (ltfInterval != "" && candles != [] ==>
                  && (answer == Failed <==> Replay(plan, prof, FRESH, bars) == Raised)
                  && (answer.Answered? ==> Replay(plan, prof, FRESH, bars) == Finished(answer.progress)))
  {
    hide Replay;
    bars := Later(candles, ReplayFrom(plan));
    LaterIncreasing(candles, ReplayFrom(plan));
    LaterIff(candles, ReplayFrom(plan));
  }

  class Service {
    const registry: (string, string, string) -> Profile
    var watchlist: map<string, TradeSignal>
    var events: seq<Event>

    constructor (registry: (string, string, string) -> Profile)
      ensures this.registry == registry && watchlist == map[] && events == [] && Valid()
    {
      this.registry := registry;
      watchlist, events := map[], [];
    }

    function ProfileOf(s: TradeSignal): Profile {
      registry(s.symbol, s.htfInterval, s.ltfInterval)
    }

    predicate Watched(s: TradeSignal)
      reads this
    {
      s.id in watchlist && watchlist[s.id] == s
    }

    /** Between updates the watchlist holds only TRIGGERED or TP1_HIT signals, under their ids. */
    ghost predicate Valid()
      reads this, watchlist.Values
    {
      forall id <- watchlist :: watchlist[id].id == id && Open(watchlist[id].status)
    }

    /** On the watchlist, or closed meanwhile by an update that overlaps this one. */
    predicate Captured(s: TradeSignal)
      reads this, s
    {
      Watched(s) || !Open(s.status)
    }

    /** `_evaluate_signal` with `_close_signal`. */
    method EvaluateSignal(signal: TradeSignal, candle: Candle) returns (raised: bool)
      requires Valid() && Captured(signal)
      modifies this`watchlist, this`events, signal
      ensures Valid()
      ensures raised == !WellFormed(candle)
      ensures raised ==> signal.Current() == old(signal.Current()) && watchlist == old(watchlist) && events == old(events)
      ensures !raised ==>
                var v := Judge(signal.plan, ProfileOf(signal), old(signal.status), candle);
                && signal.Current() == Apply(signal.plan, ProfileOf(signal), old(signal.Current()), v, candle)
                && watchlist == (if Terminal(v) then old(watchlist) - {signal.id} else old(watchlist))
                && events == old(events) + Tag(signal.id, StepNotices(v, signal.status))
    {
      var step := signal.Step(candle, ProfileOf(signal));
      if step.BadCandle? {
        return true;
      }
      if step.emitTp1 {
        events := events + [(signal.id, Tp1Reached)];
      }
      if step.terminal {
        watchlist := watchlist - {signal.id};
        events := events + [(signal.id, Closed(signal.status))];
      }
      return false;
    }

    /** The inner candle loop of `_fetch_and_evaluate` for one signal. */
    method ScanCandles(signal: TradeSignal, candles: seq<Candle>) returns (raised: bool)
      requires Valid() && Captured(signal)
      modifies this`watchlist, this`events, signal
      ensures Valid() && Captured(signal)
      ensures var s := ScanSignal(signal.plan, ProfileOf(signal), old(signal.Current()), candles);
              && raised == s.raised
              && signal.Current() == s.progress
              && events == old(events) + Tag(signal.id, s.notices)
              && watchlist == if Closing(s.notices) then old(watchlist) - {signal.id} else old(watchlist)
    {
      hide ScanSignal, ScanGoesOn, Apply, StepNotices, Closing, Tag;
      ghost var plan, prof, start := signal.plan, ProfileOf(signal), signal.Current();
      ghost var sent: seq<Notice> := [];
      ScanBegins(plan, prof, start, candles);
      for i := 0 to |candles|
        invariant Valid() && watchlist == old(watchlist) && Captured(signal)
        invariant ScanGoesOn(plan, prof, start, candles, i, signal.Current(), sent)
        invariant events == old(events) + Tag(signal.id, sent)
      {
        ghost var before, v := signal.Current(), Judge(plan, prof, signal.status, candles[i]);
        ScanStep(plan, prof, start, candles, i, before, sent);
        var bad := EvaluateSignal(signal, candles[i]);
        if bad {
          return true;
        }
        TagMore(signal.id, sent, StepNotices(v, signal.status));
        sent := sent + StepNotices(v, signal.status);
        if !(signal.status == TRIGGERED || signal.status == TP1_HIT) {
          return false;
        }
      }
      ScanDone(plan, prof, start, candles, signal.Current(), sent);
      return false;
    }

    ghost function EntryOf(s: TradeSignal): Entry
      reads s
    {
      Entry(s.id, s.plan, ProfileOf(s), s.Current())
    }

    ghost function Entries(signals: seq<TradeSignal>): (es: seq<Entry>)
      reads signals
      ensures |es| == |signals| && forall k :: 0 <= k < |es| ==> es[k] == EntryOf(signals[k])
    {
      if signals == [] then [] else [EntryOf(signals[0])] + Entries(signals[1..])
    }

    /** Captured before the fetch, each once. */
    ghost predicate AllCaptured(signals: seq<TradeSignal>)
      reads this, signals
    {
      && (forall s <- signals :: Captured(s))
      && (forall j, k :: 0 <= j < k < |signals| ==> signals[j].id != signals[k].id)
    }

    /** After `i` signals: those done have moved, the dropped ids have left the watchlist, the others are untouched. */
    ghost predicate Halfway(signals: seq<TradeSignal>, i: nat, start: seq<Entry>, done: seq<Entry>,
                            before: map<string, TradeSignal>, gone: set<string>)
      requires i <= |signals| == |start|
      reads this, signals, watchlist.Values
    {
      && Valid() && |done| == i && watchlist == before - gone
      && (forall j, k :: 0 <= j < k < |signals| ==> signals[j].id != signals[k].id)
      && (forall k :: i <= k < |signals| ==> Captured(signals[k]) && EntryOf(signals[k]) == start[k])
      && (forall k :: 0 <= k < i ==> EntryOf(signals[k]) == done[k])
    }

    method ScanNext(signals: seq<TradeSignal>, i: nat, candles: seq<Candle>, ghost start: seq<Entry>,
                    ghost done: seq<Entry>, ghost before: map<string, TradeSignal>, ghost gone: set<string>)
      returns (raised: bool, ghost own: Own)
      requires i < |signals| == |start| && Halfway(signals, i, start, done, before, gone)
      modifies this`watchlist, this`events, signals[i]
      ensures own == OwnScan(start[i], candles) && raised == own.raised
      ensures Halfway(signals, i + 1, start, done + [own.moved], before, gone + own.dropped)
      ensures events == old(events) + own.told
    {
      hide ScanSignal, AfterTrigger, Tag, TradeSignal.Current, Closing;
      var s := signals[i];
      raised := ScanCandles(s, AfterTrigger(candles, s.plan));
      own := OwnScan(start[i], candles);
    }

    /** The signal loop of `_fetch_and_evaluate`. */
    method ScanGroup(signals: seq<TradeSignal>, candles: seq<Candle>) returns (raised: bool)
      requires Valid() && AllCaptured(signals)
      modifies this`watchlist, this`events, signals
      ensures Valid()
      ensures var g := GroupScan(old(Entries(signals)), candles);
              && raised == g.raised && Entries(signals) == g.entries
              && events == old(events) + g.events && watchlist == old(watchlist) - g.dropped
    {
      hide GroupScan, OwnScan, Scanned, Halfway, Entries, AllCaptured;
      ghost var start := Entries(signals);
      ghost var done := NOT_STARTED;
      NoneScanned(start, candles);
      HalfwayStart(signals);
      raised := false;
      var i := 0;
      while i < |signals| && !raised
        invariant 0 <= i <= |signals| && raised == done.raised
        invariant Halfway(signals, i, start, done.entries, old(watchlist), done.dropped)
        invariant Scanned(start, candles, i, done)
        invariant events == old(events) + done.events
      {
        NextSignal(start, candles, i, done);
        ghost var own;
        raised, own := ScanNext(signals, i, candles, start, done.entries, old(watchlist), done.dropped);
        done := Extended(done, own);
        i := i + 1;
      }
      AllScanned(start, candles, i, done);
      HalfwayMeans(signals, i, start, done.entries, old(watchlist), done.dropped);
    }

    lemma HalfwayStart(signals: seq<TradeSignal>)
      requires Valid() && AllCaptured(signals)
      ensures Halfway(signals, 0, Entries(signals), [], watchlist, {})
    {
      hide TradeSignal.Current, EntryOf;
    }

    lemma HalfwayMeans(signals: seq<TradeSignal>, i: nat, start: seq<Entry>, done: seq<Entry>,
                       before: map<string, TradeSignal>, gone: set<string>)
      requires i <= |signals| == |start| && Halfway(signals, i, start, done, before, gone)
      ensures Valid() && watchlist == before - gone
      ensures Entries(signals) == done + start[i..]
    {
      hide TradeSignal.Current, EntryOf, Captured, Valid;
      var end := done + start[i..];
      assert forall k :: 0 <= k < |signals| ==> Entries(signals)[k] == end[k];
    }

    /** `_fetch_and_evaluate` for the signals of one timeframe; nothing happens on fewer than two closed candles. */
    method UpdateGroup(signals: seq<TradeSignal>, fetched: seq<Candle>, now: int, ltfMs: int) returns (raised: bool)
      requires Valid() && AllCaptured(signals) && ltfMs > 0
      modifies this`watchlist, this`events, signals
      ensures Valid()
      ensures var candles := ClosedBy(fetched, LastClosedOpen(now, ltfMs));
              var g := if |candles| < 2 then Group(old(Entries(signals)), [], {}, false)
                       else GroupScan(old(Entries(signals)), candles);
              && raised == g.raised && Entries(signals) == g.entries
              && events == old(events) + g.events && watchlist == old(watchlist) - g.dropped
    {
      var candles := ClosedBy(fetched, LastClosedOpen(now, ltfMs));
      if |candles| < 2 {
        raised := false;
      } else {
        raised := ScanGroup(signals, candles);
      }
    }

    /** `query_signal_status`: a reset copy, replayed once over the candles after the trigger. */
    method QuerySignalStatus(signal: TradeSignal, candles: seq<Candle>) returns (answer: StatusAnswer)
      ensures answer == StatusOf(signal.plan, ProfileOf(signal), signal.ltfInterval, candles)
    {
      if signal.ltfInterval == "" {
        return NoInterval;
      }
      if candles == [] {
        return NoCandles;
      }
      var reset := new TradeSignal(signal.id, signal.symbol, signal.htfInterval, signal.ltfInterval, signal.plan, FRESH);
      var probe, raised := ReplaySignalLifecycle(reset, Later(candles, ReplayFrom(signal.plan)), ProfileOf(signal));
      answer := if raised then Failed else Answered(probe.Current());
    }
  }
}
