# A verified model of the signal engine

The repository turns multi-timeframe price zones into trade signals, follows each signal
through its life (triggered, TP1 hit, closed), replays the same rules in a backtester, wakes
up per symbol on thread timers, matches signals from several brokers, and ships the sources of
the Windows service wrapper it runs under. This project models its stateful core and proves
what that core is for.

| Module | Models |
|---|---|
| `Domain` | candles, plans, the gates and levels of a built signal, trade-management arithmetic |
| `Lifecycle`, `FirstPassage`, `Outcomes` | the shared candle step and replay loop, their closed form over first touches, and what a closed signal reports in prices and bars |
| `LiveRescan`, `SignalService`, `EntryBar` | the live watchlist, which scans each open signal again from its trigger at every update, the status query, and the query against the backtest |
| `Giveback`, `Ratchet`, `Trailing` | the giveback-trailing simulator against the plain replay, its stop, and what the configured share and the report mean |
| `Backtest`, `Admission`, `Decisions`, `LookAhead`, `CoarseBars`, `StructureTable`, `CachedRun` | the multi-pair run: a cache-free definition, what every run keeps, when a zone becomes a trade, which bars a decision can depend on and which not, the structure table, and the real loop with its four memo tables |
| `Accounting` | balances, drawdown and the two limits that end an account |
| `Mitigation` | the heap of open trades behind the risk-rule simulations |
| `Scheduler`, `WakeUp` | timers, callbacks and subscriptions as interleaved steps; boundary and weekend arithmetic |
| `Session`, `SessionLedger` | loss-streak pause, day rollover, zone limits, direction locks, and the same told from what was entered and closed before |
| `Consensus` | the two-broker matching buffer |
| `DoubleNull`, `Affinity` | the service wrapper's text and CPU-mask codecs |

Code that changes state is a class or a method with loops, proved against a function of the
old state; the lemmas are about those functions. Times are `int`; prices, R multiples and
balances are `real`.

Hypotheses carried explicitly: candle times increase; candles are well formed as the source
checks it (high not below low); levels are in order where a lemma says `OrderedLevels`; lookbacks
are at least 3; with the trend filter on, pairs sharing a higher timeframe share a lookback; a
zone's key determines its start and box; for the results about unclosed bars, expiries are not negative
and a direction lock lasts at least as long as a trade can.

Where the code does not do what its documentation says, the model follows the code and a lemma
says exactly when the two agree:

- Live updates rescan from the trigger with the status the last update left. With break-even
  moves on, a signal left past TP1 by one update is closed at break-even by the next one if any
  candle up to the TP1 candle touched the entry, on that earlier candle
  (`LiveRescan.LiveAgreesWithOnePass`, an if-and-only-if).
- The trailing simulator books a full win at the full reward, the shared lifecycle at the
  weighted one; the two agree exactly when nothing is closed at TP1, TP1 is TP2, or the reward
  is zero (`Giveback.WithoutBreakevenTheyCoincide`).
- A best price of exactly 0 is taken for a missing one (`Ratchet.BestPriceDrops`).
- The comments promise decisions from closed data. No decision depends on a bar that opens after
  its tick, whatever the timeframes (`LookAhead.NoUnopenedBars`), and with lower timeframes of one
  length none depends on an unclosed bar (`LookAhead.NoLookAhead`). For every two different lengths
  there are whole runs that do: a direction lock is released at the open of a coarse bar by what
  that bar will do (`CoarseBars.CoarseBarsLookAhead`).
- For every two different lookbacks on one higher timeframe the structure table, keyed by that
  timeframe alone, can change what a run admits (`StructureTable.DifferentLookbacksDisagree`).
- A status query and live updates skip the bar that opens when the setup closes, which the backtest
  simulates, and replay bars the backtest takes as past when the setup is older than the last visible
  bar; `EntryBar.QueryMatchesBacktestIff` says exactly when that makes no difference.
- An update captures its signals before it waits for candles. One that an overlapping update has
  closed meanwhile can be reported closed a second time (`LiveRescan.ClosedSignalIsReportedAgainIff`).
- Dropping a symbol and adding it again while its analysis runs, or while its elapsed timer is
  on its way to the lock, starts a second wake-up chain; that is the only way
  (`Scheduler.OneTokenIff`, `Scheduler.ReaddingOverlapsTicks`).
- The consensus window is only looked at when draining: a second broker confirms after it if and
  only if no drain came at or past the expiry (`Consensus.ConfirmsIffNotDrained`).
- Midnight drops a running pause (`Session.MidnightDropsPause`), and since history is bounded, a
  void outcome can lift one by pushing out a loss, exactly under the condition of
  `Session.VoidLiftsPauseIff`. Direction locks of the session never carry a time, so only a recorded
  outcome frees them (`Session.DirectionHeldUntilClosed`). A loss limit of zero or less makes the streak
  check fail when no loss stands (`Session.CrashesOnlyWithoutLimit`).
- A CPU text the parser accepts can still leave its table or the shift width;
  `Affinity.AcceptedTextInBoundsIff` says exactly when it does not, and `Affinity.FewCommasStayInTable`
  bounds refused texts.
- Unformatting text that ends in a line break leaves one NUL more than the block had
  (`DoubleNull.ReaderFindsLines`).
- Plans are in order exactly when the TP1 trigger lies strictly between 0 and 100
  (`Domain.BuiltPlansAreOrdered`); `src/config/settings.py:742-752` means to check this for overrides
  but reads the override map one level too shallow.

## Model

| member | source | states |
|---|---|---|
| `Domain.BuiltPlansAreOrdered` | src/domain/signals/builder.py:76-152 | a plan that passes every gate has its stop on the losing side and TP1 strictly between entry and TP2 if and only if the TP1 trigger is strictly between 0 and 100; a stop costs 1 R, TP2 pays the plan's R, and the R cap holds |
| `Domain.BecomesPlanIff` | src/domain/signals/builder.py:76-152 | a setup becomes a plan if and only if its stop lies on the losing side, at least 1e-8 away and within the zone multiple, its target lies on the winning side and pays the least R, and the session allows it; the stop is the wick and the buffer beyond it, and the plan is dated from the open of its candle to its close |
| `Domain.TargetIsCapped` | src/domain/signals/builder.py:123-138 | the target is the zone's unless that pays more than the cap; then it pays exactly the cap |
| `Domain.BookedRrIsWeightedFills` | src/domain/trade_management.py:25-63 | the booked full-win and break-even R are what the fills pay: the closed share at TP1 and the rest at TP2, or at the entry |
| `Lifecycle.TradeSignal.Step` | src/app/engine/market_replay.py:75-168 | the in-place step is the judged verdict applied to the old state (expiry, then both targets, then stop, then TP1); a malformed candle raises and changes nothing |
| `Lifecycle.ReplaySignalLifecycle` | src/app/engine/market_replay.py:171-180 | the replay loop runs on a private copy and ends where the replay function ends |
| `FirstPassage.ReplayIsFirstPassage` | src/app/engine/market_replay.py:83-180 | over every candle series, the final state of the stateful replay equals a closed form over the first bars of expiry, stop, TP1, TP2 and post-TP1 stop, with its tie rules |
| `FirstPassage.OrderedPassage` | src/app/engine/market_replay.py:105-152 | with levels in order, TP1 is never touched after TP2, and the TP2 touch that decides is the first of the whole series |
| `Outcomes.ReplayReportsFit` | src/app/engine/market_replay.py:83-168 | over every series, a signal as the builder prices it ends open with nothing booked, or closed on one of its bars with a fill worth -1 R, the plan's R, or 0 R as its outcome says, the booked R of those fills, the time of its status alone, and the event of that status on that bar |
| `Outcomes.OpenIffQuiet` | src/app/engine/market_replay.py:83-180 | a replay leaves the signal open if and only if no bar expires it, gains to TP2 or loses to the stop then in force; TP1 was reached exactly if some bar gains to it |
| `Outcomes.Tp1TimeIsFirstTouch` | src/app/engine/market_replay.py:105-152 | the TP1 time is that of the first bar touching TP1, and is set exactly when no expiry or stop came by then |
| `LiveRescan.LifeIsDisciplined` | src/app/services/signal_service.py:786-822 | over any sequence of updates a signal reports TP1 at most once and a close at most once, TP1 first; it has closed exactly when it is no longer open, with outcome, R and price set |
| `LiveRescan.ScanIsReplay` | src/app/services/signal_service.py:760-770 | one update from a given state is a replay from that state |
| `LiveRescan.RescanOutcome` | src/app/services/signal_service.py:760-770 | what any sequence of updates leaves: the one-pass state, or a break-even close at the first entry touch no later than TP1's bar |
| `LiveRescan.LiveAgreesWithOnePass` | src/app/engine/market_replay.py:102-166 | the rescanned state equals one replay of all candles if and only if break-even moves are off, or no earlier update left the signal past TP1, or no candle up to TP1's touches the entry |
| `LiveRescan.ClosedPassIsFinal` | src/app/engine/market_replay.py:176-180 | once one pass closes a signal, more candles do not change it |
| `SignalService.UpdatesSeeGrowingPrefixes` | src/app/services/signal_service.py:741-763 | two updates of one growing history feed a signal growing prefixes of one series |
| `SignalService.UpdateStepsBars` | src/app/services/signal_service.py:741-770 | an update scans exactly the bars of the history that open after the signal's trigger and are over by now, in their order |
| `SignalService.GroupSignalsAreIndependent` | src/app/services/signal_service.py:760-770 | signals of one timeframe do not interfere; after a malformed candle exactly the later ones are left untouched |
| `LiveRescan.ClosedSignalIsReportedAgainIff` | src/app/engine/market_replay.py:83-100 | a signal that an overlapping update has already closed is reported closed again, as expired, if and only if the first candle it is shown is well formed and past its expiry; otherwise nothing is sent and nothing changes |
| `SignalService.Service.EvaluateSignal` | src/app/services/signal_service.py:786-868 | one candle's whole effect on signal, watchlist and events, also for a signal closed meanwhile; the watchlist keeps only TRIGGERED or TP1_HIT signals |
| `SignalService.Service.ScanCandles` | src/app/services/signal_service.py:764-770 | the candle loop of one captured signal: state and events of the scan, and its id leaves the watchlist exactly if a close was sent |
| `SignalService.OpenSignalsLeaveWhenClosed` | src/app/services/signal_service.py:815-822 | of a group with different ids, a signal that was open leaves the watchlist if and only if it is no longer open |
| `SignalService.Service.ScanGroup` | src/app/services/signal_service.py:760-770 | the signal loop over the signals captured before the fetch: every signal's state, the event order, and exactly the dropped ids removed |
| `SignalService.Service.UpdateGroup` | src/app/services/signal_service.py:737-770 | the same for one timeframe's fetch: only closed candles count, and fewer than two of them change nothing |
| `SignalService.Service.QuerySignalStatus` | src/app/services/signal_service.py:948-995 | the error answers without an interval or without candles; otherwise one replay of a reset copy over the candles after the trigger, or after creation when there is none |
| `SignalService.QueryReplaysBars` | src/app/services/signal_service.py:986-995 | the query replays a fresh signal over exactly the candles that open after its trigger, or its creation when there is none, in order |
| `EntryBar.SkippingFirstBarIff` | src/app/services/signal_service.py:992-995 | over every series, leaving out the first bar keeps the result if and only if that bar does nothing, or reaches TP1 and break-even is off or the later bars reach TP1 again before entry and expiry |
| `EntryBar.SkippingBarsIff` | src/app/services/signal_service.py:992-995 | leaving out the first k bars keeps the result if and only if they close nothing and, where they reach TP1, break-even is off or the later bars reach TP1 again before entry and expiry |
| `EntryBar.QueryMatchesOnLastBarIff` | src/app/backtesting/backtest.py:1168-1170 | for a setup on the last visible bar, the status query answers what the plain backtest simulated if and only if no bar opens at the trigger or that bar can be skipped |
| `EntryBar.QueryMatchesBacktestIff` | src/app/backtesting/backtest.py:1144-1170 | for any setup and any number of visible bars, the two agree if and only if the bars only one of them replays can be skipped |
| `Giveback.AdvanceGivebackSl` | src/app/backtesting/backtest.py:1394-1421 | the per-direction stop update is the direction-free rule: best price so far, give back a share, accept only a better stop short of the close |
| `Giveback.SimulateWithGivebackTrailing` | src/app/backtesting/backtest.py:1265-1392 | the trailing loop returns the result of the trailing run |
| `Giveback.Simulate` | src/app/backtesting/backtest.py:1219-1262 | trailing when a giveback is set, the plain replay otherwise; only the latter can raise, exactly on a malformed candle met before the close |
| `Giveback.PlainRunIsReplay` | src/app/engine/market_replay.py:171-180 | the run used for comparison is the shared replay, with its closing bar |
| `Giveback.CutoffsAgree` | src/app/backtesting/backtest.py:1265-1300 | the trailing loop's own expiry cutoff is the lifecycle's for nonnegative times |
| `Giveback.TrailingRefinesReplay` | src/app/backtesting/backtest.py:1291-1392 | with break-even on, trailing never closes later; losses and timeouts are exactly the plain ones on the same bar; a full win is a plain full win on the same bar; a plain break-even is a trailed one that pays at least as much |
| `Giveback.WithoutBreakevenTheyCoincide` | src/app/backtesting/backtest.py:1291-1392 | with break-even off, bar, outcome, close time and price coincide on every series; the booked R coincides exactly under the stated condition |
| `Ratchet.StopIsProtected` | src/app/backtesting/backtest.py:1337-1380 | after TP1 the stop is never on the losing side of the entry |
| `Ratchet.StopRatchets` | src/app/backtesting/backtest.py:1394-1421 | between any two bars after TP1 the stop moves only in the trade's favour, and the bar that set it closed strictly beyond it |
| `Ratchet.StopOutIsProtected` | src/app/backtesting/backtest.py:1337-1380 | every stop-out after TP1 fills at the entry or better and books at least the protected break-even R |
| `Ratchet.BestPriceDrops` | src/app/backtesting/backtest.py:1405 | the recorded best price gets worse if and only if it was 0 and the candle's extreme is worse than 0 |
| `Ratchet.BestPriceIsExtreme` | src/app/backtesting/backtest.py:1394-1421 | on positive prices the recorded best price is the best extreme since TP1's own bar |
| `Trailing.StopFollowsGiveback` | src/app/backtesting/backtest.py:1394-1421 | from TP1's bar on, the stop moves to the price that gives back the configured percent of the best move since then exactly if the trade has gained, the price improves on the stop and the bar closes beyond it; otherwise it stays |
| `Trailing.TrailedStopGivesBack` | src/app/backtesting/backtest.py:1394-1421 | every trailed stop is the giveback price of the best extreme from TP1's bar to the bar that set it |
| `Trailing.GivebackShares` | src/app/backtesting/backtest.py:1409-1418 | giving back nothing is the best price, everything the entry, and more is never a better stop |
| `Trailing.TrailReportsFit` | src/app/backtesting/backtest.py:1291-1392 | a trailed trade closes on its first bar that expires it, gains to TP2 or loses to the stop in force, with the fill, booked R and entry flag that bar and the stop call for; else it never closes |
| `Trailing.Tp1SeenIffGained` | src/app/backtesting/backtest.py:1337-1380 | while the trade is open, TP1 counts as reached if and only if some bar gained to it |
| `Trailing.HitEntryIff` | src/app/backtesting/backtest.py:1337-1380 | while the trade is open, the entry flag is set if and only if a bar after one that gained to TP1 came back to the entry |
| `Admission.RunKeeps` | src/app/backtesting/backtest.py:1002-1183 | over every run: counts equal emissions and stay within the limit, dead zones are exactly those at the limit, signals of a zone are numbered in order, no rejection is used twice for a pair, trades under one direction key do not overlap |
| `Admission.AttemptsHaveNoGaps` | src/app/backtesting/backtest.py:1166 | every attempt number from 1 to a zone's count occurs |
| `Admission.DecisionsAreAdmissible` | src/app/backtesting/backtest.py:1095-1145 | whatever the detectors return, an admitted setup passed the zone, rejection and direction gates |
| `Decisions.RunDecides` | src/app/backtesting/backtest.py:1008-1198 | at every tick of every run each pair is shown every closed bar and no other, and a trade is added if and only if the chart and the earlier trades admit one: enough bars, a bias, and the first zone with fewer earlier trades than the limit, the bias's direction, a fresh rejection not yet used, no earlier trade of the direction still running, and a plan; it is simulated on the bars not yet visible |
| `Decisions.DecidesIff` | src/app/backtesting/backtest.py:1020-1163 | on any books that follow the trades, a pair admits a setup if and only if it is the one described |
| `Decisions.RunFollows` | src/app/backtesting/backtest.py:1002-1183 | at every tick zone counts, dead zones, used rejections and locks are what the earlier trades make them; a direction is locked exactly while an earlier trade of it lasts |
| `Decisions.DecisionsChain` | src/app/backtesting/backtest.py:989-1198 | the decisions follow one another from no trades at the end of the warm-up, pair after pair and bar after bar |
| `Decisions.ViewShowsClosed` | src/app/backtesting/backtest.py:1013-1079 | a bar is visible if and only if it has closed, lower ones by the last boundary of their interval; freshness is judged from the last such bar |
| `Decisions.OnlyNewestBarsMatter` | src/app/backtesting/backtest.py:1018-1020 | histories whose last lookback bars agree get the same bias and, with the displacement filter off, the same zones |
| `Decisions.WarmUpIsLeast` | src/app/backtesting/backtest.py:936-938 | the warm-up is the least number that is 100 and covers every lookback on every higher timeframe |
| `Decisions.MasterIsFinest` | src/app/backtesting/backtest.py:931-932 | the master is the first listed of the finest lower timeframes |
| `LookAhead.SimulatedAgrees` | src/app/backtesting/backtest.py:1168-1170 | two futures that agree up to a time give simulations that close by that time alike, though each looks at all later bars |
| `LookAhead.ViewsAgree` | src/app/backtesting/backtest.py:1013-1020 | at every tick up to i, what a pair is shown depends only on higher-timeframe bars closed, and lower-timeframe bars opened, by tick i |
| `LookAhead.RunsAgree` | src/app/backtesting/backtest.py:999-1198 | the books of two such runs agree, their direction locks and results up to what the future can still change, whatever the timeframes |
| `LookAhead.NoUnopenedBars` | src/app/backtesting/backtest.py:999-1006 | whatever the timeframes, histories that agree on the higher-timeframe bars closed and the lower-timeframe bars opened by tick i admit the same setups up to it, and every trade whose lock has ended has the same result |
| `LookAhead.NoLookAhead` | src/app/backtesting/backtest.py:999-1020 | with lower timeframes of one length, histories with the same timestamps that agree on every bar closed by tick i admit exactly the same setups, plans and attempts at every tick up to i, and ended trades have the same results |
| `CoarseBars.CoarseBarsLookAhead` | src/app/backtesting/backtest.py:1002-1006 | for every two lengths of lower timeframe there are rules, with plans dated as the builder dates them, and two histories, equal on every bar closed by the last tick, of which whole runs admit different setups |
| `StructureTable.TableIsTransparent` | src/app/backtesting/backtest.py:1026-1037 | with the trend filter off, or one lookback per higher timeframe, the run with the structure table has the books of the run without it |
| `StructureTable.DifferentLookbacksDisagree` | src/app/backtesting/backtest.py:1026-1033 | for every two different lookbacks on one higher timeframe, with the filter on, there are detectors and bars on which the run with the table admits other setups |
| `CachedRun.SliceFromStart` | src/app/backtesting/backtest.py:1101-1117 | a slice from the remembered start index is the slice of what is visible |
| `CachedRun.Backtester.Structure` | src/app/backtesting/backtest.py:1026-1037 | the table answers and changes as written, and under a shared lookback its answer is detection on the newest visible bars, the lookback of them or all there are |
| `CachedRun.Backtester.Ranges` | src/app/backtesting/backtest.py:1039-1066 | so does the range table: the zones found on the newest visible bars, of which the displacement filter keeps those displaced on all visible ones, in order |
| `CachedRun.Backtester.StartIndex` | src/app/backtesting/backtest.py:1101-1105 | so does the start-index table |
| `CachedRun.Backtester.FindEntry` | src/app/backtesting/backtest.py:1111-1123 | so does the entry table, on the visible bars |
| `CachedRun.Backtester.GateZone` | src/app/backtesting/backtest.py:1081-1163 | the gates of one zone, in the source's order, decide as the cache-free gate does |
| `CachedRun.Backtester.Admit` | src/app/backtesting/backtest.py:1164-1183 | admission updates the books and takes a dead zone, and only a dead one, out of both zone tables |
| `CachedRun.Backtester.RunPair` | src/app/backtesting/backtest.py:1008-1198 | one pair at one tick leaves the books of the cache-free pair tick and keeps the tables sound |
| `CachedRun.Backtester.RunTick` | src/app/backtesting/backtest.py:999-1198 | so does one tick over all pairs, after expiring locks |
| `CachedRun.Backtester.Run` | src/app/backtesting/backtest.py:920-1198 | the run with four memo tables ends with exactly the books of the cache-free run |
| `Accounting.TradeMovesBalance` | src/app/backtesting/backtest.py:118-142 | one trade's accounting carries the closed forms of balance (linear at fixed risk, a product otherwise), peak and drawdown one step |
| `Accounting.EndsAtFirstViolation` | src/app/backtesting/backtest.py:324-366 | the number of simulated trades is n if and only if no earlier trade violates a limit and, unless all were played, trade n does |
| `Accounting.EarlierTradesWithinLimits` | src/app/backtesting/backtest.py:325-347 | every trade before the last is within both limits, in percent of its peak and of the start |
| `Accounting.TighterIsPrefix` | src/app/backtesting/backtest.py:294-366 | tightening limits plays a prefix of the looser run, trade by trade with the same accounting |
| `Accounting.WorstDropIsWorstPair` | src/app/backtesting/backtest.py:362-363 | the one-pass drawdown is the largest fall from any balance, the start included, to any later one |
| `Accounting.WorstDropPctIsWorstPair` | src/app/backtesting/backtest.py:130-133 | in percent it is attained and bounds every fall to a balance at or above zero |
| `Accounting.GrossesBalance` | src/app/backtesting/backtest.py:368-377 | gross profit less gross loss is the change of the balance |
| `Accounting.PlayTrades` | src/app/backtesting/backtest.py:301-366 | the loop with its break produces exactly those rows, balance, drawdowns and kill record |
| `Accounting.ComputeAccounting` | src/app/backtesting/backtest.py:275-395 | rows and summary together: final less start equals gross profit less gross loss, the averages are these totals over their counts, and best and worst trade are among the trades and bound them |
| `Accounting.EndIsExplained` | src/app/backtesting/backtest.py:322-366 | what ended the account: nothing if no trade is past a limit; else the first trade that is, with its balance and peak, named a trailing drawdown exactly when that limit is broken, and the floor that lies the limit below the peak or the start |
| `Accounting.TradeBooksItsRisk` | src/app/backtesting/backtest.py:118-142 | a trade moves the balance by its R times the percentage at risk of the start, or of the balance before it |
| `Accounting.GrossesAreSums` | src/app/backtesting/backtest.py:372-377 | the gross figures are the sums over exactly the winning and the losing trades, and the counts their numbers; a trade at zero is neither |
| `Mitigation.HeapOrderIsCloseOrder` | src/app/backtesting/streak_analysis.py:374-376 | among trades that can be pending together, tuple order is close order |
| `Mitigation.CloseOrderUnique` | src/app/backtesting/streak_analysis.py:374-376 | a collection of trades has one close order |
| `Mitigation.PoppedIsOffline` | src/app/backtesting/streak_analysis.py:374-386 | what was popped by an entry is exactly the trades closed by then, in close order |
| `Mitigation.Drain` | src/app/backtesting/streak_analysis.py:374-386 | the drain loop leaves the tally of the offline fold over exactly the closed earlier trades |
| `Mitigation.Simulate` | src/app/backtesting/streak_analysis.py:365-408 | each multiplier is the rule's answer on the offline fold; contributions, skips, total, drawdown, worst day and worst month follow; popped over the whole run are exactly the trades closed by the last entry, in close order |
| `Mitigation.SimEqFilter` | src/app/backtesting/streak_analysis.py:410-424 | the equity filter's contributions, total and drawdown: each multiplier is decided on exactly the trades closed by then; the pops are those closed by the last entry, in close order |
| `Mitigation.WorstDayIsLeast` | src/app/backtesting/streak_analysis.py:396-406 | the worst day is the least total of a day on which a trade was entered |
| `Mitigation.WorstMonthIsLeast` | src/app/backtesting/streak_analysis.py:397-407 | the worst month is the least total of a calendar month from the first entry's to the last entry's, empty months included |
| `Mitigation.TotalsAreSums` | src/app/backtesting/streak_analysis.py:396-402 | a day's or a month's total is what the trades entered in it add to the whole |
| `Mitigation.FilterSeesDrawdown` | src/app/backtesting/streak_analysis.py:414-419 | what the filter compares are the settled equity and its highest value since the start |
| `Mitigation.TallyCounts` | src/app/backtesting/streak_analysis.py:376-386 | over any settled trades the tally holds, overall and per day, the taken losses after the last taken win, and per day the sum of R times multiplier of the taken trades |
| `Mitigation.RuleSees` | src/app/backtesting/streak_analysis.py:369-393 | each entry is decided on exactly these figures of the trades closed by then, and contributes its R at the rule's multiplier |
| `Mitigation.ClosedBeforeIs` | src/app/backtesting/streak_analysis.py:374-386 | the trades closed by then are the earlier ones whose close is not after the entry, each once, with their own figures, earlier closes first |
| `Mitigation.FilterSees` | src/app/backtesting/streak_analysis.py:410-424 | under the equity filter each entry is reduced exactly when the equity of the closed trades lies further below its best value than the threshold |
| `Mitigation.MaxDdIsWorstPair` | src/app/backtesting/streak_analysis.py:114-117 | the array expression is the deepest fall between two totals that both follow a trade; a fall from the start itself is not counted |
| `Scheduler.RunsStayLive` | src/interfaces/scheduler.py:47-95 | in every interleaving, every scheduled symbol has a pending wake-up or an analysis in flight |
| `Scheduler.OneTokenIff` | src/interfaces/scheduler.py:171-206 | one step leaves at most one token per symbol if and only if it does not re-add a symbol whose old token is still around |
| `Scheduler.RunsStaySingle` | src/interfaces/scheduler.py:171-206 | along a run there is one token per symbol up to the first such event, and not after it |
| `Scheduler.ScheduledIffSubscribed` | src/interfaces/scheduler.py:47-78 | a symbol is scheduled if and only if the calls so far leave it a subscriber |
| `Scheduler.ReaddingOverlapsTicks` | src/interfaces/scheduler.py:198-206 | a run from the idle scheduler that ends with two analyses of one symbol in flight |
| `Scheduler.AnalysesStartOnTicks` | src/interfaces/scheduler.py:47-206 | over every run, a new analysis appears at a step if and only if the timer of a scheduled, idle symbol runs while the market is open, and it is that symbol's; on the weekend the same timer leaves the analyses alone and arms one timer; subscribing arms one timer per new symbol, and dropping stops only timers of schedules that go |
| `Scheduler.TimerRunStarts` | src/interfaces/scheduler.py:176-206 | the whole effect of a timer reaching the lock |
| `Scheduler.AnalysisEndRearms` | src/interfaces/scheduler.py:198-204 | the whole effect of a completed analysis |
| `Scheduler.SignalScheduler.Subscribe` | src/interfaces/scheduler.py:47-58 | the loop over symbols is the modelled subscription |
| `Scheduler.SignalScheduler.RemoveSymbols` | src/interfaces/scheduler.py:71-78 | the loop over symbols is the modelled removal |
| `Scheduler.SignalScheduler.Unsubscribe` | src/interfaces/scheduler.py:60-66 | the same over every scheduled symbol |
| `Scheduler.SignalScheduler.CancelSchedule` | src/interfaces/scheduler.py:171-174 | a schedule is dropped; its timer is stopped only if it has not elapsed |
| `Scheduler.SignalScheduler.Run` | src/interfaces/scheduler.py:176-206 | a timer's arrival at the lock: gone, running, weekend, or a new analysis |
| `Scheduler.SignalScheduler.OnDone` | src/interfaces/scheduler.py:198-204 | completion clears the flag and arms the next timer if the symbol is still scheduled |
| `WakeUp.WakesAfterNextBoundary` | src/interfaces/scheduler.py:99-104 | the wake-up lands the buffer after the least interval boundary strictly after now |
| `WakeUp.SleepsWhileClosed` | src/interfaces/scheduler.py:124-150 | a delay exists if and only if now lies in the cyclic interval from close up to reopen, and is the cyclic distance to reopen plus the buffer |
| `WakeUp.WakesAtReopening` | src/interfaces/scheduler.py:106-150 | the wake-up is positive and falls at or after the reopening by less than the buffer and a second |
| `WakeUp.OpenAtWake` | src/interfaces/scheduler.py:124-150 | at the wake-up the gate is open if and only if the open window outlasts the late part of the wake |
| `WakeUp.WeekdaysFollowTheCalendar` | src/interfaces/scheduler.py:106-117 | a second of the day k days after the epoch is that second of weekday (k + 3) mod 7, Monday first |
| `Session.WindowSeesStreak` | src/app/session/coordinator.py:177-185 | the bounded history gives the streak of all records if and only if they fit, a win is in the window, or no loss stands before it |
| `Session.ConsecutiveLosses` | src/app/session/coordinator.py:177-185 | the backward loop with its break equals the forward counter |
| `Session.StreakRecords` | src/app/session/coordinator.py:328-333 | the records collected are the streak's losses, the first one the newest |
| `Session.CrashesOnlyWithoutLimit` | src/app/session/coordinator.py:319-335 | the newest loss is looked up when there is none if and only if the limit is not positive and no loss stands |
| `Session.RunsStaySound` | src/app/session/coordinator.py:73-159 | over every run: limited zones are exactly those at the limit, history is bounded, no lock carries a time, and a standing pause is the newest loss of a long enough streak plus the pause time |
| `Session.ZoneEmitsAtMostItsLimit` | src/domain/signals/dedup.py:184-191 | over any run, days included, a zone emits at most its remaining number of signals |
| `Session.RejectionFiresOnce` | src/domain/signals/dedup.py:201-203 | over any run a rejection fires at most once, and never once used |
| `Session.DirectionHeldUntilClosed` | src/app/session/coordinator.py:310-317 | without a close under its key a run emits at most one signal in a direction; releasing expired locks frees none |
| `Session.PauseLiftedIff` | src/app/session/coordinator.py:319-348 | recording an outcome lifts a standing pause if and only if it is a win, a loss whose pause is over, or a void after the end or on a full history whose oldest record is a loss the limit needs |
| `Session.PauseStep` | src/app/session/coordinator.py:88-90 | on the day of the pause an offer is refused for it if and only if it has not ended, and leaves it standing |
| `Session.NoSignalWhilePaused` | src/app/session/coordinator.py:88-90 | over any run within one UTC day, before the pause ends and with no outcome that lifts it, every offer is refused and the pause stands |
| `Session.RolledKeepsBooks` | src/app/session/coordinator.py:287-308 | rollover keeps zone counts, limited zones, used rejections and direction locks |
| `Session.MidnightDropsPause` | src/app/session/coordinator.py:287-308 | on a new day exactly the pause that the day's own stored records earn remains |
| `Session.VoidLiftsPauseIff` | src/app/session/coordinator.py:319-326 | a void outcome lifts a standing pause if and only if the pause is over, or the history is full, its oldest record is a loss, no win follows it, and the streak just reaches the limit |
| `Session.VoidCanLiftPause` | src/app/session/coordinator.py:319-326 | for every limit within the window there is such a history |
| `SessionLedger.OfferAnswered` | src/app/session/coordinator.py:73-113 | after any run, an offer is answered by the first of: a standing pause, a setup under its key entered and not closed since, as many setups entered from its zone as allowed, a stale rejection, a rejection entered before; it is allowed if and only if none applies |
| `SessionLedger.BooksFollowLedger` | src/domain/signals/dedup.py:76-120 | after any run the counts, used rejections and locks are those of the setups entered and closed before, field by field |
| `SessionLedger.OutcomePausesIff` | src/app/session/coordinator.py:319-348 | recording an outcome leaves a pause until a time standing if and only if at least the limit of losses stands since the last win and the newest plus the pause is that time and still ahead |
| `SessionLedger.StreakIsLossesSinceWin` | src/app/session/coordinator.py:177-185 | the streak is the number of losses since the last win |
| `Session.SessionCoordinator.CheckStreak` | src/app/session/coordinator.py:319-348 | the pause is recomputed from the history, or the check fails exactly as stated |
| `Session.SessionCoordinator.LoadSession` | src/app/session/coordinator.py:244-272 | the day's records are appended within the bound and the pause recomputed |
| `Session.SessionCoordinator.MaybeRollover` | src/app/session/coordinator.py:287-308 | nothing on the same day; on a new one the rolled state, also when the reload fails |
| `Session.SessionCoordinator.ReleaseExpiredDirections` | src/app/session/coordinator.py:310-317 | exactly the locks whose time has come go |
| `Session.SessionCoordinator.ShouldEmit` | src/app/session/coordinator.py:73-113 | the answer and the new state, through every refusal in order |
| `Session.SessionCoordinator.RegisterSignal` | src/domain/signals/dedup.py:76-120 | the attempt number, the limit mark, the used rejection and the lock |
| `Session.SessionCoordinator.RecordOutcome` | src/app/session/coordinator.py:138-159 | lock released, record appended within the bound, pause recomputed |
| `Consensus.Conservation` | manager/src/core/consensus.py:35-75 | over any sequence of pushes and drains, every accepted push is in exactly one emitted list or pending, as multisets |
| `Consensus.StateIsBuffer` | manager/src/core/consensus.py:46-61 | pending keys are distinct and every pending entry holds one broker |
| `Consensus.WaitingIff` | manager/src/core/consensus.py:46-75 | an entry is pending if and only if some push opened it on a free key and no other broker and no late enough drain came since |
| `Consensus.EmissionsAreJustified` | manager/src/core/consensus.py:46-75 | a push emits one pair of distinct brokers on one key, a drain single brokers that waited at least the window with no second broker in between; after a drain nothing pending is expired |
| `Consensus.LateConfirmation` | manager/src/core/consensus.py:49-54 | after any run, another broker's push on the key of a pending entry emits the pair at once, whatever the time |
| `Consensus.ConfirmsIffNotDrained` | manager/src/core/consensus.py:49-75 | the second broker on a key confirms the first, however late, if and only if no drain at or past the expiry came between them |
| `Consensus.PushConfirms` | manager/src/core/consensus.py:46-62 | after any run, a push opens an entry when none waits for its symbol, direction and setup time, and with another broker's entry waiting emits that signal with both brokers and removes only it |
| `Consensus.ConsensusEngine.Push` | manager/src/core/consensus.py:35-62 | the whole new buffer and what is returned |
| `Consensus.ConsensusEngine.DrainExpired` | manager/src/core/consensus.py:64-75 | the deletion loop leaves exactly the entries that are not expired and returns the others in order |
| `DoubleNull.FormattedBlock` | nssm/nssm-2.24/src/registry.cpp:352-382 | the block of any nonempty list of plain nonempty strings is formatted as its lines joined by CRLF, with both NULs |
| `DoubleNull.RemovingBlank` | nssm/nssm-2.24/src/registry.cpp:397-414 | taking out one blank line keeps the cleaned text |
| `DoubleNull.CleanIsFixed` | nssm/nssm-2.24/src/registry.cpp:397-414 | text without blank lines is already clean |
| `DoubleNull.RoundTrip` | nssm/nssm-2.24/src/registry.cpp:352-430 | for every nonempty list of plain nonempty strings, unformatting the formatted text restores block and length |
| `DoubleNull.ReaderFindsLines` | nssm/nssm-2.24/src/registry.cpp:385-430 | a reader of the unformatted block finds exactly the nonempty lines of any CRLF text, and the block is theirs up to one NUL for a final line break |
| `DoubleNull.FormattedSize` | nssm/nssm-2.24/src/registry.cpp:355-362 | the counted length is the formatted length |
| `DoubleNull.FormatDoubleNull` | nssm/nssm-2.24/src/registry.cpp:353-382 | the filled buffer is the formatted block, to its last slot |
| `DoubleNull.SkipBlankLines` | nssm/nssm-2.24/src/registry.cpp:396-414 | on any text that does not end in a CR the in-place removal terminates with exactly the cleaned text and a matching length |
| `DoubleNull.UnformatDoubleNull` | nssm/nssm-2.24/src/registry.cpp:385-430 | for such text, lone CRs included, the output is the cleaned text with LF as NUL, no CR, and two closing NULs |
| `Affinity.RunsAreMaximal` | nssm/nssm-2.24/src/service.cpp:106-121 | the runs of a mask increase, leave a gap between neighbours, and cover exactly its bits |
| `Affinity.RenderFits` | nssm/nssm-2.24/src/service.cpp:123-126 | text and terminator take at most six characters a run |
| `Affinity.RenderedParses` | nssm/nssm-2.24/src/service.cpp:170-206 | the printed text of any runs within the width parses, without refusal, to those runs, a run of two as two entries |
| `Affinity.EntriesFit` | nssm/nssm-2.24/src/service.cpp:157-167 | the parsed entries of a printed mask never outnumber its bits, so they fit the table |
| `Affinity.RoundTrip` | nssm/nssm-2.24/src/service.cpp:97-213 | parsing what was printed for any mask gives that mask, the empty one included |
| `Affinity.RefusalsAreCoded` | nssm/nssm-2.24/src/service.cpp:170-206 | a refused string has code 2 or 3; code 4 is never returned |
| `Affinity.PrefixesSetTheBase` | nssm/nssm-2.24/src/service.cpp:170-195 | decimal digits, hexadecimal ones after 0x and octal ones after 0 are read to their value |
| `Affinity.DecimalMeans` | nssm/nssm-2.24/src/service.cpp:170-195 | a decimal number is its value, the largest 32-bit one when it does not fit, and with a minus sign its negative as an int |
| `Affinity.AcceptedTextInBoundsIff` | nssm/nssm-2.24/src/service.cpp:173-210 | an accepted text stays within the table and the shift width if and only if it has fewer commas than the width, is not empty, does not end in a comma, and no entry ends beyond the width |
| `Affinity.FewCommasStayInTable` | nssm/nssm-2.24/src/service.cpp:169-206 | any text, refused ones included, with fewer commas than the width stays within the table while it is read |
| `Affinity.FindRuns` | nssm/nssm-2.24/src/service.cpp:106-121 | the table loop fills the table with exactly the runs |
| `Affinity.PrintRuns` | nssm/nssm-2.24/src/service.cpp:123-146 | the buffer holds the text and a terminator within six characters a run |
| `Affinity.AffinityMaskToString` | nssm/nssm-2.24/src/service.cpp:97-149 | no string exactly for the empty mask, otherwise the printed text, and never an error code |
| `Affinity.ReadEntries` | nssm/nssm-2.24/src/service.cpp:170-206 | the entry loop's table or refusal is the parser's, and its table at the end is known for refused texts too |
| `Affinity.CollectMask` | nssm/nssm-2.24/src/service.cpp:208-210 | the double loop collects exactly the CPUs of all entries |
| `Affinity.AffinityStringToMask` | nssm/nssm-2.24/src/service.cpp:151-213 | the mask of the text, or its refusal code with the empty mask |

## Left out

- The detectors (`find_entry`, range and structure detection, displacement) and `build_signal` inside the run are function-valued parameters; nothing is assumed about them except where a lemma says so. The signal direction of a zone is taken as its break direction.
- Metrics, logging, parity traces, printing, persistence, fetching and message transport; stored records and fetched candles are parameters. A fetch that fails is an update that does not happen.
- `update_watchlist`'s grouping by timeframe and `asyncio.gather`: each group's evaluation runs without suspension, so an update is its groups one after another in some order.
- `_loss_streak_lengths`, `_max_run`, and the correlation and Monte Carlo sections of the streak analysis: short folds and randomness.
- Mitigation.Simulate: `heapq` is modelled by its contract (the least tuple is popped), kept as ordered contents; the calendar is a parameter that numbers months.
- Float rounding everywhere; NaN and infinite prices, which `normalize_candle` rejects, do not occur in `real`.
- CachedRun.Backtester.Run: lookbacks below 3 are excluded, since the source then indexes an empty window; master intervals of at least a minute.
- LookAhead.NoLookAhead: about admitted setups, not about the simulated results, which by design look at later bars.
- Accounting.ComputeAccounting: trade dates and display prices are not modelled.
- Scheduler: symbols are taken as already upper-cased; futures that are cancelled, whose completion callback raises in the source, are excluded; delays are not timed, a timer may elapse at any step.
- Scheduler.SignalScheduler: `shutdown` is an event of the interleaving model, without a method of its own.
- Session: startup replay of closed records into the dedup books and the wall clock's source; a failed reload is modelled only as the failing streak check.
- EntryBar.QueryMatchesBacktestIff: for the plain simulation; how trailing differs from it is `Giveback.TrailingRefinesReplay`.
- SignalService.Service.EvaluateSignal: the outcome record that a second close writes again is not modelled, only its event.
- Session.RunsStaySound: for loss limits of at least 1; below that the streak check can fail (Session.CrashesOnlyWithoutLimit).
- SessionLedger.OfferAnswered: for the same limits, from a coordinator that starts with empty books.
- Accounting.EndIsExplained: for positive start balances, as its limits are stated in percent of a peak.
- Trailing.TrailedStopGivesBack: on positive prices; a best price of 0 counts as missing (Ratchet.BestPriceDrops).
- Consensus: the key is the triple of symbol, direction and time, not its text with separators; `time.monotonic` is a parameter.
- DoubleNull.SkipBlankLines: text that ends in a CR is excluded: after a removal the source compares that CR with a stale character past the text, and for a text of a single CR its unsigned bound wraps below zero.
- DoubleNull.UnformatDoubleNull: excludes the same texts, for the same reason; failed allocation and 32-bit lengths are not modelled.
- DoubleNull.FormatDoubleNull: the slot after the block, which the source reads, is required to hold NUL.
- Affinity.AffinityStringToMask: the table grows where the source has 64 slots, and shift amounts of -1 or beyond the width, undefined in C, stay CPU numbers of the collected set; when neither occurs is `Affinity.AcceptedTextInBoundsIff`. Locale-dependent blanks are not modelled.
- Affinity.AffinityMaskToString: widths above 100, whose CPU numbers would not fit the printed field, are excluded; failed allocation is not modelled.
- The rest of the service wrapper, the reports, grids, command-line drivers, settings parsing and session windows: lookups and folds that would only add easy members.
