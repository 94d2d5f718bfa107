/**
 The timer scheduler of src/interfaces/scheduler.py as interleaved atomic steps:
 calls under the lock, timers that elapse, timer threads that reach the lock, and
 analyses that complete. A symbol's tokens are the wake-ups and analyses that can
 still lead to its next tick.
 */
module Scheduler {

  /**
   A started timer waits; once elapsed, its thread is on its way to the lock and can
   no longer be cancelled. An analysis is in flight from the moment its tick starts.
   */
  datatype Task = Armed(symbol: string) | Elapsed(symbol: string) | InFlight(symbol: string)

  datatype Schedule = Schedule(isRunning: bool, timer: nat, subscribers: set<string>)

  datatype World = World(schedules: map<string, Schedule>, tasks: map<nat, Task>, nextId: nat)

  const IDLE := World(map[], map[], 0)

  // ----- Atomic effects -----

  /** Start a timer for a scheduled symbol and remember it (`_schedule_next`). */
  function Arm(w: World, symbol: string): World
    requires symbol in w.schedules
  {
    World(w.schedules[symbol := w.schedules[symbol].(timer := w.nextId)],
          w.tasks[w.nextId := Armed(symbol)],
          w.nextId + 1)
  }

  function AddSubscriber(w: World, id: string, symbol: string): World {
    if symbol in w.schedules then
      var sched := w.schedules[symbol];
      w.(schedules := w.schedules[symbol := sched.(subscribers := sched.subscribers + {id})])
    else
      World(w.schedules[symbol := Schedule(false, w.nextId, {id})], w.tasks[w.nextId := Armed(symbol)], w.nextId + 1)
  }

  /** `_cancel`: drop the schedule; its timer is stopped only if it has not elapsed. */
  function Cancel(w: World, symbol: string): World
    requires symbol in w.schedules
  {
    var t := w.schedules[symbol].timer;
    w.(schedules := w.schedules - {symbol},
       tasks := if t in w.tasks && w.tasks[t].Armed? then w.tasks - {t} else w.tasks)
  }

  function DropSubscriber(w: World, id: string, symbol: string): World {
    if symbol !in w.schedules then w
    else
      var left := w.schedules[symbol].subscribers - {id};
      if left == {} then Cancel(w, symbol)
      else w.(schedules := w.schedules[symbol := w.schedules[symbol].(subscribers := left)])
  }

  function SubscribeAll(w: World, id: string, symbols: seq<string>): World
    decreases |symbols|
  {
    if symbols == [] then w else SubscribeAll(AddSubscriber(w, id, symbols[0]), id, symbols[1..])
  }

  function DropAll(w: World, id: string, symbols: seq<string>): World
    decreases |symbols|
  {
    if symbols == [] then w else DropAll(DropSubscriber(w, id, symbols[0]), id, symbols[1..])
  }

  function CancelAll(w: World, symbols: seq<string>): World
    decreases |symbols|
  {
    if symbols == [] then w
    else CancelAll(if symbols[0] in w.schedules then Cancel(w, symbols[0]) else w, symbols[1..])
  }

  /** `_run`, entered by the thread of an elapsed timer. */
  function Fire(w: World, t: nat, weekend: bool): World
    requires t in w.tasks
  {
    var symbol := w.tasks[t].symbol;
    var v := w.(tasks := w.tasks - {t});
    if symbol !in v.schedules || v.schedules[symbol].isRunning then v
    else if weekend then Arm(v, symbol)
    else World(v.schedules[symbol := v.schedules[symbol].(isRunning := true)],
               v.tasks[v.nextId := InFlight(symbol)],
               v.nextId + 1)
  }

  /** `_on_done` of an analysis that was not cancelled. */
  function Finish(w: World, f: nat): World
    requires f in w.tasks
  {
    var symbol := w.tasks[f].symbol;
    var v := w.(tasks := w.tasks - {f});
    if symbol !in v.schedules then v
    else Arm(v.(schedules := v.schedules[symbol := v.schedules[symbol].(isRunning := false)]), symbol)
  }

  // ----- Events and runs -----

  /** `Drop` covers `remove_symbols`, and `unsubscribe` when every scheduled symbol is listed. */
  datatype Event =
    | Subscribe(id: string, symbols: seq<string>)
    | Drop(id: string, symbols: seq<string>)
    | Shutdown(symbols: seq<string>)
    | TimerElapses(task: nat)
    | TimerRuns(task: nat, weekend: bool)
    | AnalysisDone(task: nat)

  predicate Enabled(w: World, e: Event) {
    match e
    case Subscribe(_, _) => true
    case Drop(_, _) => true
    case Shutdown(symbols) => forall s <- w.schedules :: s in symbols
    case TimerElapses(t) => t in w.tasks && w.tasks[t].Armed?
    case TimerRuns(t, _) => t in w.tasks && w.tasks[t].Elapsed?
    case AnalysisDone(f) => f in w.tasks && w.tasks[f].InFlight?
  }

  function Step(w: World, e: Event): World
    requires Enabled(w, e)
  {
    match e
    case Subscribe(id, symbols) => SubscribeAll(w, id, symbols)
    case Drop(id, symbols) => DropAll(w, id, symbols)
    case Shutdown(symbols) => CancelAll(w, symbols)
    case TimerElapses(t) => w.(tasks := w.tasks[t := Elapsed(w.tasks[t].symbol)])
    case TimerRuns(t, weekend) => Fire(w, t, weekend)
    case AnalysisDone(f) => Finish(w, f)
  }

  /** `worlds` are the states the events lead through from the idle scheduler. */
  ghost predicate IsRun(worlds: seq<World>, events: seq<Event>) {
    && |worlds| == |events| + 1
    && worlds[0] == IDLE
    && (forall i :: 0 <= i < |events| ==> Enabled(worlds[i], events[i]) && worlds[i + 1] == Step(worlds[i], events[i]))
  }

  // ----- Every scheduled symbol keeps a token -----

  predicate HasToken(w: World, s: string) {
    exists t <- w.tasks :: w.tasks[t].symbol == s
  }

  predicate HasFlight(w: World, s: string) {
    exists t <- w.tasks :: w.tasks[t] == InFlight(s)
  }

  /** Ids are fresh, no schedule is without subscribers, and none is left without a token. */
  ghost predicate Live(w: World) {
    && (forall t <- w.tasks :: t < w.nextId)
    && (forall s <- w.schedules ::
          var sched := w.schedules[s];
          && sched.subscribers != {}
          && sched.timer < w.nextId
          && (sched.timer in w.tasks ==> w.tasks[sched.timer].symbol == s)
          && (sched.isRunning ==> HasFlight(w, s))
          && HasToken(w, s))
  }

  /** Tokens of `v` other than those with ids in `gone` are the tokens of `w`. */
  lemma TokensCarryOver(w: World, v: World, gone: set<nat>, s: string)
    requires forall t <- w.tasks :: t !in gone ==> t in v.tasks && v.tasks[t] == w.tasks[t]
    requires forall t <- gone :: t in w.tasks ==> w.tasks[t].symbol != s
    ensures HasToken(w, s) ==> HasToken(v, s)
    ensures HasFlight(w, s) ==> HasFlight(v, s)
  {
    if HasToken(w, s) {
      var t :| t in w.tasks && w.tasks[t].symbol == s;
      assert v.tasks[t].symbol == s;
    }
    if HasFlight(w, s) {
      var t :| t in w.tasks && w.tasks[t] == InFlight(s);
      assert v.tasks[t] == InFlight(s);
    }
  }

  lemma AddKeepsLive(w: World, id: string, symbol: string)
    requires Live(w)
    ensures Live(AddSubscriber(w, id, symbol))
  {
    var v := AddSubscriber(w, id, symbol);
    forall s { TokensCarryOver(w, v, {}, s); }
    assert symbol !in w.schedules ==> v.tasks[w.nextId].symbol == symbol;
  }

  lemma CancelKeepsLive(w: World, symbol: string)
    requires Live(w) && symbol in w.schedules
    ensures Live(Cancel(w, symbol))
  {
    forall s | s != symbol { TokensCarryOver(w, Cancel(w, symbol), {w.schedules[symbol].timer}, s); }
  }

  lemma DropKeepsLive(w: World, id: string, symbol: string)
    requires Live(w)
    ensures Live(DropSubscriber(w, id, symbol))
  {
    var v := DropSubscriber(w, id, symbol);
    if symbol in w.schedules && w.schedules[symbol].subscribers - {id} == {} {
      CancelKeepsLive(w, symbol);
    } else {
      forall s { TokensCarryOver(w, v, {}, s); }
    }
  }

  lemma FireKeepsLive(w: World, t: nat, weekend: bool)
    requires Live(w) && t in w.tasks && w.tasks[t].Elapsed?
    ensures Live(Fire(w, t, weekend))
  {
    var v, symbol := Fire(w, t, weekend), w.tasks[t].symbol;
    forall s | s != symbol { TokensCarryOver(w, v, {t}, s); }
    if symbol in w.schedules {
      if w.schedules[symbol].isRunning {
        var f :| f in w.tasks && w.tasks[f] == InFlight(symbol);
        assert v.tasks[f] == InFlight(symbol);
      } else {
        assert v.tasks[w.nextId].symbol == symbol;
      }
    }
  }

  lemma FinishKeepsLive(w: World, f: nat)
    requires Live(w) && f in w.tasks && w.tasks[f].InFlight?
    ensures Live(Finish(w, f))
  {
    var v, symbol := Finish(w, f), w.tasks[f].symbol;
    forall s | s != symbol { TokensCarryOver(w, v, {f}, s); }
    assert symbol in w.schedules ==> v.tasks[w.nextId].symbol == symbol;
  }

  lemma ElapseKeepsLive(w: World, t: nat)
    requires Live(w) && t in w.tasks && w.tasks[t].Armed?
    ensures Live(Step(w, TimerElapses(t)))
  {
    var v := Step(w, TimerElapses(t));
    forall s | s != w.tasks[t].symbol { TokensCarryOver(w, v, {t}, s); }
    assert v.tasks[t].symbol == w.tasks[t].symbol;
    if HasFlight(w, w.tasks[t].symbol) {
      var f :| f in w.tasks && w.tasks[f] == InFlight(w.tasks[t].symbol);
      assert v.tasks[f] == InFlight(w.tasks[t].symbol);
    }
  }

  lemma {:induction false} ListsKeepLive(w: World, id: string, symbols: seq<string>)
    requires Live(w)
    ensures Live(SubscribeAll(w, id, symbols)) && Live(DropAll(w, id, symbols)) && Live(CancelAll(w, symbols))
    decreases |symbols|
  {
    if symbols != [] {
      AddKeepsLive(w, id, symbols[0]);
      ListsKeepLive(AddSubscriber(w, id, symbols[0]), id, symbols[1..]);
      DropKeepsLive(w, id, symbols[0]);
      ListsKeepLive(DropSubscriber(w, id, symbols[0]), id, symbols[1..]);
      if symbols[0] in w.schedules {
        CancelKeepsLive(w, symbols[0]);
      }
      ListsKeepLive(if symbols[0] in w.schedules then Cancel(w, symbols[0]) else w, id, symbols[1..]);
    }
  }

  lemma StepKeepsLive(w: World, e: Event)
    requires Live(w) && Enabled(w, e)
    ensures Live(Step(w, e))
  {
    match e
    case Subscribe(id, symbols) => ListsKeepLive(w, id, symbols);
    case Drop(id, symbols) => ListsKeepLive(w, id, symbols);
    case Shutdown(symbols) => ListsKeepLive(w, "", symbols);
    case TimerElapses(t) => ElapseKeepsLive(w, t);
    case TimerRuns(t, weekend) => FireKeepsLive(w, t, weekend);
    case AnalysisDone(f) => FinishKeepsLive(w, f);
  }

  /** In every interleaving, every scheduled symbol has a pending wake-up or an analysis in flight. */
  lemma {:induction false} RunsStayLive(worlds: seq<World>, events: seq<Event>, i: nat)
    requires IsRun(worlds, events) && i < |worlds|
    ensures Live(worlds[i])
  {
    if i > 0 {
      RunsStayLive(worlds, events, i - 1);
      StepKeepsLive(worlds[i - 1], events[i - 1]);
    }
  }

  // ----- Exactly one token -----

  /** No symbol has two tokens, so no two analyses of a symbol overlap. */
  predicate NoTwoTokens(w: World) {
    forall t <- w.tasks, u <- w.tasks :: w.tasks[t].symbol == w.tasks[u].symbol ==> t == u
  }

  /** Besides, a scheduled symbol's only token is its own timer, an elapsed one, or its running analysis. */
  ghost predicate Single(w: World) {
    && Live(w)
    && NoTwoTokens(w)
    && (forall t <- w.tasks :: w.tasks[t].symbol in w.schedules ==>
          var sched := w.schedules[w.tasks[t].symbol];
          && (w.tasks[t].Armed? ==> sched.timer == t)
          && (w.tasks[t].InFlight? ==> sched.isRunning))
  }

  /** A dropped symbol whose analysis, or elapsed timer, has not yet finished. */
  predicate Orphan(w: World, s: string) {
    s !in w.schedules && HasToken(w, s)
  }

  /** The event schedules a symbol again while an orphan of its is still around. */
  predicate ReaddsOrphan(w: World, e: Event) {
    e.Subscribe? && exists s <- e.symbols :: Orphan(w, s)
  }

  lemma AddMovesOrphan(w: World, id: string, symbol: string)
    requires Live(w)
    ensures forall s :: s != symbol ==> (Orphan(AddSubscriber(w, id, symbol), s) <==> Orphan(w, s))
    ensures !Orphan(AddSubscriber(w, id, symbol), symbol)
  {
    var v := AddSubscriber(w, id, symbol);
    AddKeepsLive(w, id, symbol);
    forall s | s != symbol
      ensures HasToken(v, s) <==> HasToken(w, s)
    {
      TokensCarryOver(w, v, {}, s);
      if HasToken(v, s) {
        var t :| t in v.tasks && v.tasks[t].symbol == s;
        assert t in w.tasks;
      }
    }
  }

  lemma AddOverOrphan(w: World, id: string, symbol: string)
    requires Live(w) && Orphan(w, symbol)
    ensures !NoTwoTokens(AddSubscriber(w, id, symbol))
  {
    var v := AddSubscriber(w, id, symbol);
    var t :| t in w.tasks && w.tasks[t].symbol == symbol;
    assert t in v.tasks && w.nextId in v.tasks && v.tasks[w.nextId].symbol == v.tasks[t].symbol;
  }

  lemma AddToSingle(w: World, id: string, symbol: string)
    requires Single(w)
    ensures var v := AddSubscriber(w, id, symbol);
            if Orphan(w, symbol) then Live(v) && !NoTwoTokens(v) else Single(v)
  {
    AddKeepsLive(w, id, symbol);
    if Orphan(w, symbol) {
      AddOverOrphan(w, id, symbol);
    } else {
      hide Live;
    }
  }

  lemma {:induction false} CrowdStays(w: World, id: string, symbols: seq<string>)
    requires Live(w) && !NoTwoTokens(w)
    ensures !NoTwoTokens(SubscribeAll(w, id, symbols))
    decreases |symbols|
  {
    if symbols != [] {
      var v := AddSubscriber(w, id, symbols[0]);
      var t, u :| t in w.tasks && u in w.tasks && w.tasks[t].symbol == w.tasks[u].symbol && t != u;
      assert t in v.tasks && u in v.tasks && v.tasks[t] == w.tasks[t] && v.tasks[u] == w.tasks[u];
      AddKeepsLive(w, id, symbols[0]);
      CrowdStays(v, id, symbols[1..]);
    }
  }

  lemma {:induction false} SubscribeToSingle(w: World, id: string, symbols: seq<string>)
    requires Single(w)
    ensures var v := SubscribeAll(w, id, symbols);
            if exists s <- symbols :: Orphan(w, s) then !NoTwoTokens(v) else Single(v)
    decreases |symbols|
  {
    if symbols != [] {
      var v := AddSubscriber(w, id, symbols[0]);
      AddToSingle(w, id, symbols[0]);
      AddMovesOrphan(w, id, symbols[0]);
      assert symbols == [symbols[0]] + symbols[1..];
      if Orphan(w, symbols[0]) {
        CrowdStays(v, id, symbols[1..]);
      } else {
        SubscribeToSingle(v, id, symbols[1..]);
      }
    }
  }

  lemma CancelKeepsSingle(w: World, symbol: string)
    requires Single(w) && symbol in w.schedules
    ensures Single(Cancel(w, symbol))
  {
    CancelKeepsLive(w, symbol);
  }

  lemma {:induction false} DropsKeepSingle(w: World, id: string, symbols: seq<string>)
    requires Single(w)
    ensures Single(DropAll(w, id, symbols)) && Single(CancelAll(w, symbols))
    decreases |symbols|
  {
    if symbols != [] {
      DropKeepsLive(w, id, symbols[0]);
      if symbols[0] in w.schedules {
        CancelKeepsSingle(w, symbols[0]);
      }
      DropsKeepSingle(DropSubscriber(w, id, symbols[0]), id, symbols[1..]);
      DropsKeepSingle(if symbols[0] in w.schedules then Cancel(w, symbols[0]) else w, id, symbols[1..]);
    }
  }

  lemma FireKeepsSingle(w: World, t: nat, weekend: bool)
    requires Single(w) && t in w.tasks && w.tasks[t].Elapsed?
    ensures Single(Fire(w, t, weekend))
  {
    FireKeepsLive(w, t, weekend);
  }

  lemma FinishKeepsSingle(w: World, f: nat)
    requires Single(w) && f in w.tasks && w.tasks[f].InFlight?
    ensures Single(Finish(w, f))
  {
    FinishKeepsLive(w, f);
  }

  lemma ElapseKeepsSingle(w: World, t: nat)
    requires Single(w) && t in w.tasks && w.tasks[t].Armed?
    ensures Single(Step(w, TimerElapses(t)))
  {
    ElapseKeepsLive(w, t);
  }

  /**
   From a state with one token per symbol, an event leads to another such state
   exactly when it does not subscribe a symbol that was dropped while its analysis
   was in flight, or its timer already elapsed, and has not finished since.
   */
  lemma OneTokenIff(w: World, e: Event)
    requires Single(w) && Enabled(w, e)
    ensures NoTwoTokens(Step(w, e)) <==> !ReaddsOrphan(w, e)
    ensures !ReaddsOrphan(w, e) ==> Single(Step(w, e))
  {
    match e
    case Subscribe(id, symbols) => SubscribeToSingle(w, id, symbols);
    case Drop(id, symbols) => DropsKeepSingle(w, id, symbols);
    case Shutdown(symbols) => DropsKeepSingle(w, "", symbols);
    case TimerElapses(t) => ElapseKeepsSingle(w, t);
    case TimerRuns(t, weekend) => FireKeepsSingle(w, t, weekend);
    case AnalysisDone(f) => FinishKeepsSingle(w, f);
  }

  /** Along a run, one token per symbol up to the first event that re-adds an orphan, and not after it. */
  lemma {:induction false} RunsStaySingle(worlds: seq<World>, events: seq<Event>, i: nat)
    requires IsRun(worlds, events) && i < |worlds|
    requires forall j :: 0 <= j < i ==> !ReaddsOrphan(worlds[j], events[j])
    ensures Single(worlds[i])
    ensures i < |events| ==> (NoTwoTokens(worlds[i + 1]) <==> !ReaddsOrphan(worlds[i], events[i]))
  {
    if i > 0 {
      RunsStaySingle(worlds, events, i - 1);
      OneTokenIff(worlds[i - 1], events[i - 1]);
    }
    if i < |events| {
      OneTokenIff(worlds[i], events[i]);
    }
  }

  // ----- Which task each event starts and ends -----

  /** The analyses in flight, and the started timers that have not elapsed. */
  function Flights(w: World): set<nat> {
    set t <- w.tasks | w.tasks[t].InFlight?
  }

  function Timers(w: World): set<nat> {
    set t <- w.tasks | w.tasks[t].Armed?
  }

  /** The symbol would accept a tick. */
  predicate Idle(w: World, s: string) {
    s in w.schedules && !w.schedules[s].isRunning
  }

  /** The event is the tick of an idle symbol while the market is open. */
  predicate Ticks(w: World, e: Event) {
    e.TimerRuns? && !e.weekend && e.task in w.tasks && Idle(w, w.tasks[e.task].symbol)
  }

  /** Subscribing starts one timer for each symbol that was not scheduled, and changes no other task. */
  ghost predicate TimersStarted(w: World, v: World, symbols: seq<string>) {
    && (forall t <- w.tasks :: t in v.tasks && v.tasks[t] == w.tasks[t])
    && (forall t <- v.tasks :: t !in w.tasks ==>
          && v.tasks[t].Armed? && v.tasks[t].symbol in symbols && v.tasks[t].symbol !in w.schedules
          && v.tasks[t].symbol in v.schedules && v.schedules[v.tasks[t].symbol].timer == t)
    && (forall s <- symbols :: s !in w.schedules ==>
          && s in v.schedules && !v.schedules[s].isRunning
          && v.schedules[s].timer in v.tasks && v.tasks[v.schedules[s].timer] == Armed(s))
    && (forall s <- w.schedules ::
          && s in v.schedules && v.schedules[s].timer == w.schedules[s].timer
          && v.schedules[s].isRunning == w.schedules[s].isRunning)
  }

  lemma {:induction false} SubscribeStartsTimers(w: World, id: string, symbols: seq<string>)
    requires Live(w)
    ensures TimersStarted(w, SubscribeAll(w, id, symbols), symbols)
    decreases |symbols|
  {
    if symbols != [] {
      var v, rest := AddSubscriber(w, id, symbols[0]), symbols[1..];
      assert symbols == [symbols[0]] + rest;
      AddKeepsLive(w, id, symbols[0]);
      SubscribeStartsTimers(v, id, rest);
      TimersStartedTogether(w, id, symbols, SubscribeAll(v, id, rest));
    }
  }

  lemma TimersStartedTogether(w: World, id: string, symbols: seq<string>, u: World)
    requires Live(w) && symbols != [] && TimersStarted(AddSubscriber(w, id, symbols[0]), u, symbols[1..])
    ensures TimersStarted(w, u, symbols)
  {
    hide Live;
    FreshId(w);
    var v := AddSubscriber(w, id, symbols[0]);
    assert forall t <- w.tasks :: t in v.tasks && v.tasks[t] == w.tasks[t];
    forall s | s in symbols
      ensures s == symbols[0] || s in symbols[1..]
    {
      assert symbols == [symbols[0]] + symbols[1..];
    }
  }

  lemma FreshId(w: World)
    requires Live(w)
    ensures w.nextId !in w.tasks
  {}

  /** Dropping and shutting down only stop timers: those that belong to a schedule that goes. */
  ghost predicate TimersStopped(w: World, v: World) {
    && v.schedules.Keys <= w.schedules.Keys
    && (forall t <- v.tasks :: t in w.tasks && v.tasks[t] == w.tasks[t])
    && (forall t <- w.tasks ::
          t !in v.tasks <==>
          w.tasks[t].Armed? && exists s <- w.schedules :: s !in v.schedules && w.schedules[s].timer == t)
    && (forall s <- v.schedules ::
          && v.schedules[s].timer == w.schedules[s].timer
          && v.schedules[s].isRunning == w.schedules[s].isRunning)
  }

  lemma TimersStoppedTogether(w: World, v: World, u: World)
    requires TimersStopped(w, v) && TimersStopped(v, u)
    ensures TimersStopped(w, u)
  {
    forall t | t in w.tasks
      ensures t !in u.tasks <==>
              w.tasks[t].Armed? && exists s <- w.schedules :: s !in u.schedules && w.schedules[s].timer == t
    {
      if t in v.tasks && t !in u.tasks {
        var s :| s in v.schedules && s !in u.schedules && v.schedules[s].timer == t;
        assert s in w.schedules && w.schedules[s].timer == t;
      }
      if w.tasks[t].Armed? && t in v.tasks && exists s <- w.schedules :: s !in u.schedules && w.schedules[s].timer == t {
        var s :| s in w.schedules && s !in u.schedules && w.schedules[s].timer == t;
        assert s in v.schedules;
      }
    }
  }

  lemma CancelStopsTimer(w: World, symbol: string)
    requires symbol in w.schedules
    ensures TimersStopped(w, Cancel(w, symbol))
  {
    var t, v := w.schedules[symbol].timer, Cancel(w, symbol);
    if t in w.tasks && w.tasks[t].Armed? {
      assert symbol !in v.schedules;
    }
  }

  lemma {:induction false} DropsStopTimers(w: World, id: string, symbols: seq<string>)
    ensures TimersStopped(w, DropAll(w, id, symbols)) && TimersStopped(w, CancelAll(w, symbols))
    decreases |symbols|
  {
    hide TimersStopped;
    NothingStopped(w);
    if symbols != [] {
      var v := DropSubscriber(w, id, symbols[0]);
      var u := if symbols[0] in w.schedules then Cancel(w, symbols[0]) else w;
      if symbols[0] in w.schedules {
        CancelStopsTimer(w, symbols[0]);
      }
      DropStopsTimer(w, id, symbols[0]);
      DropsStopTimers(v, id, symbols[1..]);
      DropsStopTimers(u, id, symbols[1..]);
      TimersStoppedTogether(w, v, DropAll(w, id, symbols));
      TimersStoppedTogether(w, u, CancelAll(w, symbols));
    }
  }

  lemma NothingStopped(w: World)
    ensures TimersStopped(w, w)
  {}

  lemma DropStopsTimer(w: World, id: string, symbol: string)
    ensures TimersStopped(w, DropSubscriber(w, id, symbol))
  {
    if symbol in w.schedules {
      CancelStopsTimer(w, symbol);
    }
  }

  /**
   A new analysis appears exactly when the timer of an idle symbol runs while the market is open, and it is
   that symbol's. On the weekend the same timer starts nothing: the analyses stay as they were and the symbol
   gets one new timer. A timer that finds its symbol gone or running ends without a trace.
   */
  lemma TimerRunStarts(w: World, e: Event)
    requires Live(w) && Enabled(w, e) && e.TimerRuns?
    ensures var v, s := Step(w, e), w.tasks[e.task].symbol;
            && (if !Idle(w, s) then v == w.(tasks := w.tasks - {e.task})
                else exists n :: n !in w.tasks
                       && v.tasks == (w.tasks - {e.task})[n := if e.weekend then Armed(s) else InFlight(s)]
                       && s in v.schedules && v.schedules[s].isRunning == !e.weekend
                       && (e.weekend ==> v.schedules[s].timer == n)
                       && v.schedules[s].subscribers == w.schedules[s].subscribers
                       && v.schedules - {s} == w.schedules - {s})
  {
    var v, s := Step(w, e), w.tasks[e.task].symbol;
    if Idle(w, s) {
      assert w.nextId !in w.tasks;
      assert v.tasks == (w.tasks - {e.task})[w.nextId := if e.weekend then Armed(s) else InFlight(s)];
    }
  }

  /** An analysis that ends arms its symbol's next timer, unless the symbol was dropped meanwhile. */
  lemma AnalysisEndRearms(w: World, e: Event)
    requires Live(w) && Enabled(w, e) && e.AnalysisDone?
    ensures var v, s := Step(w, e), w.tasks[e.task].symbol;
            && (if s !in w.schedules then v == w.(tasks := w.tasks - {e.task})
                else exists n :: n !in w.tasks
                       && v.tasks == (w.tasks - {e.task})[n := Armed(s)]
                       && s in v.schedules && v.schedules[s] == Schedule(false, n, w.schedules[s].subscribers)
                       && v.schedules - {s} == w.schedules - {s})
  {
    var v, s := Step(w, e), w.tasks[e.task].symbol;
    if s in w.schedules {
      assert w.nextId !in w.tasks;
      assert v.tasks == (w.tasks - {e.task})[w.nextId := Armed(s)];
    }
  }

  /** At every step of a run: which analyses start and end, and which timers. */
  lemma AnalysesStartOnTicks(worlds: seq<World>, events: seq<Event>, i: nat)
    requires IsRun(worlds, events) && i < |events|
    ensures var w, v, e := worlds[i], worlds[i + 1], events[i];
            && (Flights(v) - Flights(w) != {} <==> Ticks(w, e))
            && (Ticks(w, e) ==> exists f :: Flights(v) == Flights(w) + {f} && f !in Flights(w)
                                         && v.tasks[f] == InFlight(w.tasks[e.task].symbol))
            && Flights(w) - Flights(v) == (if e.AnalysisDone? then {e.task} else {})
            && (e.TimerRuns? && e.weekend && Idle(w, w.tasks[e.task].symbol) ==>
                  Flights(v) == Flights(w)
                  && exists n :: Timers(v) == Timers(w) + {n} && n !in Timers(w)
                              && v.tasks[n] == Armed(w.tasks[e.task].symbol))
            && (e.Subscribe? ==> TimersStarted(w, v, e.symbols))
            && (e.Drop? || e.Shutdown? ==> TimersStopped(w, v))
  {
    hide Live;
    RunsStayLive(worlds, events, i);
    var w, v, e := worlds[i], worlds[i + 1], events[i];
    match e
    case Subscribe(id, symbols) => SubscribeStartsTimers(w, id, symbols);
    case Drop(id, symbols) => DropsStopTimers(w, id, symbols);
    case Shutdown(symbols) => DropsStopTimers(w, "", symbols);
    case TimerElapses(t) =>
      assert Flights(v) == Flights(w);
    case TimerRuns(t, weekend) => TickOrSleep(w, e);
    case AnalysisDone(f) => OneEnds(w, e);
  }

  lemma TickOrSleep(w: World, e: Event)
    requires Live(w) && Enabled(w, e) && e.TimerRuns?
    ensures var v, s := Step(w, e), w.tasks[e.task].symbol;
            if !Idle(w, s) then Flights(v) == Flights(w)
            else if e.weekend then
              Flights(v) == Flights(w) && exists n :: Timers(v) == Timers(w) + {n} && n !in Timers(w) && v.tasks[n] == Armed(s)
            else exists f :: Flights(v) == Flights(w) + {f} && f !in Flights(w) && v.tasks[f] == InFlight(s)
  {
    hide Live, Fire;
    TimerRunStarts(w, e);
    var v, s := Step(w, e), w.tasks[e.task].symbol;
    if Idle(w, s) {
      var n :| n !in w.tasks && v.tasks == (w.tasks - {e.task})[n := if e.weekend then Armed(s) else InFlight(s)];
      if e.weekend {
        assert Timers(v) == Timers(w) + {n};
      } else {
        assert Flights(v) == Flights(w) + {n};
      }
    }
  }

  lemma OneEnds(w: World, e: Event)
    requires Live(w) && Enabled(w, e) && e.AnalysisDone?
    ensures Flights(Step(w, e)) == Flights(w) - {e.task} && e.task in Flights(w)
  {
    hide Live, Finish;
    AnalysisEndRearms(w, e);
  }

  // ----- Scheduled iff subscribed -----

  /** Who is subscribed to what, from the calls alone. */
  function Ledger(l: set<(string, string)>, e: Event): set<(string, string)> {
    match e
    case Subscribe(id, symbols) => l + (set s <- symbols :: (id, s))
    case Drop(id, symbols) => l - (set s <- symbols :: (id, s))
    case Shutdown(_) => {}
    case _ => l
  }

  function LedgerOf(events: seq<Event>): set<(string, string)> {
    if events == [] then {} else Ledger(LedgerOf(events[..|events| - 1]), events[|events| - 1])
  }

  ghost predicate Matches(w: World, l: set<(string, string)>) {
    forall id, s :: (id, s) in l <==> s in w.schedules && id in w.schedules[s].subscribers
  }

  lemma {:induction false} SubscribeMatches(w: World, l: set<(string, string)>, id: string, symbols: seq<string>)
    requires Live(w) && Matches(w, l)
    ensures Matches(SubscribeAll(w, id, symbols), Ledger(l, Subscribe(id, symbols)))
    decreases |symbols|
  {
    if symbols != [] {
      var s, rest := symbols[0], symbols[1..];
      assert symbols == [s] + rest;
      AddKeepsLive(w, id, s);
      SubscribeMatches(AddSubscriber(w, id, s), l + {(id, s)}, id, rest);
      assert l + {(id, s)} + (set x <- rest :: (id, x)) == l + (set x <- symbols :: (id, x));
    }
  }

  lemma DropOneMatches(w: World, l: set<(string, string)>, id: string, symbol: string)
    requires Live(w) && Matches(w, l)
    ensures Matches(DropSubscriber(w, id, symbol), l - {(id, symbol)})
  {
    if symbol in w.schedules {
      var left := w.schedules[symbol].subscribers - {id};
      assert forall x :: x != id && x in w.schedules[symbol].subscribers ==> x in left;
    }
  }

  lemma {:induction false} DropMatches(w: World, l: set<(string, string)>, id: string, symbols: seq<string>)
    requires Live(w) && Matches(w, l)
    ensures Matches(DropAll(w, id, symbols), Ledger(l, Drop(id, symbols)))
    decreases |symbols|
  {
    if symbols != [] {
      var s, rest := symbols[0], symbols[1..];
      assert symbols == [s] + rest;
      DropKeepsLive(w, id, s);
      DropOneMatches(w, l, id, s);
      DropMatches(DropSubscriber(w, id, s), l - {(id, s)}, id, rest);
      assert l - {(id, s)} - (set x <- rest :: (id, x)) == l - (set x <- symbols :: (id, x));
    }
  }

  lemma {:induction false} CancelAllKeys(w: World, symbols: seq<string>)
    ensures CancelAll(w, symbols).schedules.Keys == w.schedules.Keys - (set s <- symbols)
    decreases |symbols|
  {
    if symbols != [] {
      assert symbols == [symbols[0]] + symbols[1..];
      CancelAllKeys(if symbols[0] in w.schedules then Cancel(w, symbols[0]) else w, symbols[1..]);
    }
  }

  /** A symbol is scheduled exactly when the calls so far leave it a subscriber. */
  lemma {:induction false} ScheduledIffSubscribed(worlds: seq<World>, events: seq<Event>, i: nat)
    requires IsRun(worlds, events) && i < |worlds|
    ensures Matches(worlds[i], LedgerOf(events[..i]))
    ensures forall s :: s in worlds[i].schedules <==> exists id :: (id, s) in LedgerOf(events[..i])
  {
    if i > 0 {
      var w, e := worlds[i - 1], events[i - 1];
      ScheduledIffSubscribed(worlds, events, i - 1);
      RunsStayLive(worlds, events, i - 1);
      assert events[..i][..i - 1] == events[..i - 1];
      match e
      case Subscribe(id, symbols) => SubscribeMatches(w, LedgerOf(events[..i - 1]), id, symbols);
      case Drop(id, symbols) => DropMatches(w, LedgerOf(events[..i - 1]), id, symbols);
      case Shutdown(symbols) => CancelAllKeys(w, symbols);
      case _ =>
    }
    RunsStayLive(worlds, events, i);
    MatchGivesIff(worlds[i], LedgerOf(events[..i]));
  }

  lemma MatchGivesIff(w: World, l: set<(string, string)>)
    requires Live(w) && Matches(w, l)
    ensures forall s :: s in w.schedules <==> exists id :: (id, s) in l
  {
    forall s | s in w.schedules
      ensures exists id :: (id, s) in l
    {
      var id :| id in w.schedules[s].subscribers;
      assert (id, s) in l;
    }
  }

  // ----- The other side: a run with overlapping ticks -----

  /** Dropping and re-adding a symbol during its analysis starts a second analysis beside the first. */
  lemma ReaddingOverlapsTicks(s: string, id: string) returns (worlds: seq<World>, events: seq<Event>)
    ensures IsRun(worlds, events) && |events| > 0
    ensures var w := worlds[|events|];
            exists t, u :: t != u && t in w.tasks && u in w.tasks && w.tasks[t] == w.tasks[u] == InFlight(s)
  {
    var running := World(map[s := Schedule(true, 0, {id})], map[1 := InFlight(s)], 2);
    var orphaned := World(map[], map[1 := InFlight(s)], 2);
    var readded := World(map[s := Schedule(false, 2, {id})], map[1 := InFlight(s), 2 := Armed(s)], 3);
    var overlapping := World(map[s := Schedule(true, 2, {id})], map[1 := InFlight(s), 3 := InFlight(s)], 4);
    events := [Subscribe(id, [s]), TimerElapses(0), TimerRuns(0, false), Drop(id, [s]),
               Subscribe(id, [s]), TimerElapses(2), TimerRuns(2, false)];
    worlds := [IDLE,
               World(map[s := Schedule(false, 0, {id})], map[0 := Armed(s)], 1),
               World(map[s := Schedule(false, 0, {id})], map[0 := Elapsed(s)], 1),
               running, orphaned, readded,
               World(map[s := Schedule(false, 2, {id})], map[1 := InFlight(s), 2 := Elapsed(s)], 3),
               overlapping];
    OneSymbolSteps(s, id);
    assert Step(worlds[1], events[1]) == worlds[2];
    assert Step(worlds[2], events[2]) == worlds[3];
    assert Step(worlds[5], events[5]) == worlds[6];
    assert Step(worlds[6], events[6]) == worlds[7];
    assert overlapping.tasks[1] == overlapping.tasks[3] == InFlight(s);
  }

  lemma OneSymbolSteps(s: string, id: string)
    ensures SubscribeAll(IDLE, id, [s]) == World(map[s := Schedule(false, 0, {id})], map[0 := Armed(s)], 1)
    ensures DropAll(World(map[s := Schedule(true, 0, {id})], map[1 := InFlight(s)], 2), id, [s])
         == World(map[], map[1 := InFlight(s)], 2)
    ensures SubscribeAll(World(map[], map[1 := InFlight(s)], 2), id, [s])
         == World(map[s := Schedule(false, 2, {id})], map[1 := InFlight(s), 2 := Armed(s)], 3)
  {
    assert [s][1..] == [];
    var w := World(map[s := Schedule(true, 0, {id})], map[1 := InFlight(s)], 2);
    assert w.schedules[s].subscribers - {id} == {};
    assert Cancel(w, s).schedules == map[];
  }

  // ----- The scheduler object -----

  class SignalScheduler {
    var schedules: map<string, Schedule>
    var tasks: map<nat, Task>
    var nextId: nat

    constructor ()
      ensures State() == IDLE
    {
      schedules, tasks, nextId := map[], map[], 0;
    }

    function State(): World
      reads this
    {
      World(schedules, tasks, nextId)
    }

    method StartTimer(symbol: string) returns (timer: nat)
      modifies this`tasks, this`nextId
      ensures timer == old(nextId) && tasks == old(tasks)[timer := Armed(symbol)] && nextId == old(nextId) + 1
    {
      timer := nextId;
      tasks := tasks[timer := Armed(symbol)];
      nextId := nextId + 1;
    }

    method Subscribe(id: string, symbols: seq<string>)
      modifies this
      ensures State() == SubscribeAll(old(State()), id, symbols)
    {
      for i := 0 to |symbols|
        invariant SubscribeAll(State(), id, symbols[i..]) == SubscribeAll(old(State()), id, symbols)
      {
        assert symbols[i..][1..] == symbols[i + 1..];
        var symbol := symbols[i];
        ghost var before := State();
        if symbol !in schedules {
          schedules := schedules[symbol := Schedule(false, nextId, {})];
          var timer := StartTimer(symbol);
          schedules := schedules[symbol := schedules[symbol].(timer := timer)];
        }
        var sched := schedules[symbol];
        schedules := schedules[symbol := sched.(subscribers := sched.subscribers + {id})];
        assert {} + {id} == {id};
        assert schedules == AddSubscriber(before, id, symbol).schedules;
      }
    }

    method RemoveSymbols(id: string, symbols: seq<string>)
      modifies this
      ensures State() == DropAll(old(State()), id, symbols)
    {
      for i := 0 to |symbols|
        invariant DropAll(State(), id, symbols[i..]) == DropAll(old(State()), id, symbols)
      {
        assert symbols[i..][1..] == symbols[i + 1..];
        var symbol := symbols[i];
        ghost var before := State();
        if symbol in schedules {
          var sched := schedules[symbol];
          schedules := schedules[symbol := sched.(subscribers := sched.subscribers - {id})];
          if schedules[symbol].subscribers == {} {
            CancelSchedule(symbol);
          }
          assert schedules == DropSubscriber(before, id, symbol).schedules;
        }
      }
    }

    /** `unsubscribe`: the same over every scheduled symbol, in the order they are listed. */
    method Unsubscribe(id: string) returns (ghost order: seq<string>)
      modifies this
      ensures State() == DropAll(old(State()), id, order)
      ensures (set s <- order) == old(schedules.Keys)
    {
      var listed: seq<string> := [];
      var left := schedules.Keys;
      while left != {}
        invariant (set s <- listed) + left == old(schedules.Keys) && State() == old(State())
        decreases left
      {
        var s :| s in left;
        listed, left := listed + [s], left - {s};
      }
      RemoveSymbols(id, listed);
      order := listed;
    }

    method CancelSchedule(symbol: string)
      requires symbol in schedules
      modifies this`schedules, this`tasks
      ensures World(schedules, tasks, nextId) == Cancel(old(State()), symbol)
    {
      var timer := schedules[symbol].timer;
      schedules := schedules - {symbol};
      if timer in tasks && tasks[timer].Armed? {
        tasks := tasks - {timer};
      }
    }

    method ScheduleNext(symbol: string)
      requires symbol in schedules
      modifies this
      ensures State() == Arm(old(State()), symbol)
    {
      var timer := StartTimer(symbol);
      schedules := schedules[symbol := schedules[symbol].(timer := timer)];
    }

    /** `_run`; `weekend` is the answer of the weekend gate. */
    method Run(timer: nat, weekend: bool)
      requires timer in tasks && tasks[timer].Elapsed?
      modifies this
      ensures State() == Fire(old(State()), timer, weekend)
    {
      var symbol := tasks[timer].symbol;
      tasks := tasks - {timer};
      if symbol !in schedules {
        return;
      }
      if schedules[symbol].isRunning {
        return;
      }
      if weekend {
        ScheduleNext(symbol);
        return;
      }
      schedules := schedules[symbol := schedules[symbol].(isRunning := true)];
      tasks := tasks[nextId := InFlight(symbol)];
      nextId := nextId + 1;
    }

    /** `_on_done`. */
    method OnDone(analysis: nat)
      requires analysis in tasks && tasks[analysis].InFlight?
      modifies this
      ensures State() == Finish(old(State()), analysis)
    {
      var symbol := tasks[analysis].symbol;
      tasks := tasks - {analysis};
      if symbol in schedules {
        schedules := schedules[symbol := schedules[symbol].(isRunning := false)];
        ScheduleNext(symbol);
      }
    }
  }
}
