/** The wake-up arithmetic of src/interfaces/scheduler.py. */
module WakeUp {
  import opened Domain

  const WEEK_S := 604800
  const DAY_S := 86400

  /** The epoch fell on a Thursday; weekdays count from Monday. */
  function SecondsOfWeek(brokerMs: int): (s: int)
    ensures 0 <= s < WEEK_S
  {
    (brokerMs / 1000 + 3 * DAY_S) % WEEK_S
  }

  /** Second `s` of the day `k` days after the epoch, a Thursday, is that second of weekday `(k + 3) mod 7`, Monday first. */
  lemma WeekdaysFollowTheCalendar(k: int, s: int, ms: int)
    requires 0 <= s < DAY_S && 0 <= ms < 1000
    ensures SecondsOfWeek((k * DAY_S + s) * 1000 + ms) == (k + 3) % 7 * DAY_S + s
  {
    WholeSeconds(k * DAY_S + s, ms);
    WholeWeeks((k + 3) / 7, (k + 3) % 7 * DAY_S + s);
  }

  lemma WholeSeconds(sec: int, ms: int)
    requires 0 <= ms < 1000
    ensures (sec * 1000 + ms) / 1000 == sec
  {}

  lemma WholeWeeks(w: int, s: int)
    requires 0 <= s < WEEK_S
    ensures (w * WEEK_S + s) % WEEK_S == s
  {}

  // ----- Candle boundaries -----

  function MsUntilNextBoundary(nowMs: int, intervalMinutes: int, bufferMs: int): int
    requires intervalMinutes > 0
  {
    var nowS := nowMs / 1000;
    var ivS := intervalMinutes * 60;
    var nextS := (nowS / ivS + 1) * ivS;
    (nextS * 1000 - nowMs) + bufferMs
  }

  /** The wake-up is `bufferMs` after the least interval boundary strictly after now. */
  lemma WakesAfterNextBoundary(nowMs: int, intervalMinutes: int, bufferMs: int)
    requires intervalMinutes > 0
    ensures var iv := intervalMinutes * 60000;
            var k := (nowMs + MsUntilNextBoundary(nowMs, intervalMinutes, bufferMs) - bufferMs) / iv;
            && nowMs + MsUntilNextBoundary(nowMs, intervalMinutes, bufferMs) == k * iv + bufferMs
            && k * iv > nowMs
            && (forall m: int :: m * iv > nowMs ==> m >= k)
  {
    var ivS, iv := intervalMinutes * 60, intervalMinutes * 60000;
    var q := nowMs / 1000 / ivS;
    var k := q + 1;
    assert nowMs + MsUntilNextBoundary(nowMs, intervalMinutes, bufferMs) - bufferMs == k * ivS * 1000 == k * iv;
    DivideExactly(k, iv);
    assert q * ivS <= nowMs / 1000 < q * ivS + ivS;
    assert q * iv == q * ivS * 1000;
    assert k * iv == q * iv + iv;
    forall m: int | m * iv > nowMs
      ensures m >= k
    {
      if m <= q {
        ScaleOrder(m, q, iv);
      }
    }
  }

  lemma ScaleOrder(m: int, q: int, iv: int)
    requires m <= q && iv > 0
    ensures m * iv <= q * iv
  {
    assert (q - m) * iv >= 0;
  }

  lemma DivideExactly(k: int, iv: int)
    requires iv > 0
    ensures k * iv / iv == k
  {
    var d := k * iv / iv;
    assert (k - d) * iv == k * iv % iv;
    assert k - d >= 1 ==> (k - d) * iv >= iv;
    assert k - d <= -1 ==> (k - d) * iv <= -iv;
  }

  // ----- The weekend gate -----

  /** `_weekend_sleep_delay_ms`, from the broker's second of the week. */
  function WeekendDelay(enabled: bool, nowS: int, closeS: int, reopenS: int, bufferMs: int): Option<int> {
    if !enabled then None
    else if closeS == reopenS then None
    else
      var isClosed := if closeS < reopenS then closeS <= nowS < reopenS else nowS >= closeS || nowS < reopenS;
      var untilReopen :=
        if closeS < reopenS || nowS < reopenS then reopenS - nowS else WEEK_S - nowS + reopenS;
      if !isClosed then None else Some(untilReopen * 1000 + bufferMs)
  }

  /** Cyclic distance from `a` forward to `b` around the week. */
  function Ahead(a: int, b: int): (d: int)
    ensures 0 <= d < WEEK_S
  {
    (b - a) % WEEK_S
  }

  predicate SecondOfWeek(s: int) {
    0 <= s < WEEK_S
  }

  /**
   The market sleeps exactly while now lies in the cyclic interval from close up to
   reopen, and the delay is then the cyclic distance to reopen plus the buffer.
   */
  lemma SleepsWhileClosed(nowS: int, closeS: int, reopenS: int, bufferMs: int)
    requires SecondOfWeek(nowS) && SecondOfWeek(closeS) && SecondOfWeek(reopenS)
    ensures var d := WeekendDelay(true, nowS, closeS, reopenS, bufferMs);
            && (d.Some? <==> Ahead(closeS, nowS) < Ahead(closeS, reopenS))
            && (d.Some? ==> d.value == Ahead(nowS, reopenS) * 1000 + bufferMs && Ahead(nowS, reopenS) > 0)
  {
  }

  /** The broker time, in milliseconds, of the next reopening after a closed `brokerMs`. */
  function ReopenMs(brokerMs: int, reopenS: int): int {
    (brokerMs / 1000 + Ahead(SecondsOfWeek(brokerMs), reopenS)) * 1000
  }

  lemma ShiftedSecond(s: int, base: int, shift: int)
    requires s == base % WEEK_S
    ensures (base + shift) % WEEK_S == (s + shift) % WEEK_S
  {
    var q := base / WEEK_S;
    assert base == q * WEEK_S + s;
    assert base + shift == q * WEEK_S + (s + shift);
  }

  /** The reopening falls on its second of the week. */
  lemma ReopenSecond(brokerMs: int, reopenS: int)
    requires SecondOfWeek(reopenS)
    ensures SecondsOfWeek(ReopenMs(brokerMs, reopenS)) == reopenS
  {
    var nowS := SecondsOfWeek(brokerMs);
    ShiftedSecond(nowS, brokerMs / 1000 + 3 * DAY_S, Ahead(nowS, reopenS));
    assert ReopenMs(brokerMs, reopenS) / 1000 == brokerMs / 1000 + Ahead(nowS, reopenS);
    assert (nowS + Ahead(nowS, reopenS)) % WEEK_S == reopenS;
  }

  /** A closed market wakes at or after the reopening, by less than the buffer and a second. */
  lemma WakesAtReopening(brokerMs: int, closeS: int, reopenS: int, bufferMs: int)
    requires SecondOfWeek(closeS) && SecondOfWeek(reopenS) && bufferMs >= 0
    requires WeekendDelay(true, SecondsOfWeek(brokerMs), closeS, reopenS, bufferMs).Some?
    ensures var delay := WeekendDelay(true, SecondsOfWeek(brokerMs), closeS, reopenS, bufferMs).value;
            && delay > 0
            && SecondsOfWeek(ReopenMs(brokerMs, reopenS)) == reopenS
            && ReopenMs(brokerMs, reopenS) + bufferMs <= brokerMs + delay < ReopenMs(brokerMs, reopenS) + bufferMs + 1000
            && brokerMs + delay == ReopenMs(brokerMs, reopenS) + brokerMs % 1000 + bufferMs
  {
    hide SecondsOfWeek, WeekendDelay, Ahead;
    SleepsWhileClosed(SecondsOfWeek(brokerMs), closeS, reopenS, bufferMs);
    ReopenSecond(brokerMs, reopenS);
    assert brokerMs == brokerMs / 1000 * 1000 + brokerMs % 1000;
  }

  /** `late` seconds after the reopening the week is open exactly if that is before the next close. */
  lemma LateAfterReopening(closeS: int, reopenS: int, late: int)
    requires SecondOfWeek(closeS) && SecondOfWeek(reopenS) && closeS != reopenS && 0 <= late < WEEK_S
    ensures Ahead(closeS, (reopenS + late) % WEEK_S) < Ahead(closeS, reopenS) <==> late >= Ahead(reopenS, closeS)
  {
  }

  /** At the wake-up the gate is open exactly when the open window outlasts the late part of the wake. */
  lemma OpenAtWake(brokerMs: int, closeS: int, reopenS: int, bufferMs: int)
    requires SecondOfWeek(closeS) && SecondOfWeek(reopenS)
    requires 0 <= bufferMs && bufferMs + 1000 <= WEEK_S * 1000
    requires WeekendDelay(true, SecondsOfWeek(brokerMs), closeS, reopenS, bufferMs).Some?
    ensures var delay := WeekendDelay(true, SecondsOfWeek(brokerMs), closeS, reopenS, bufferMs).value;
            WeekendDelay(true, SecondsOfWeek(brokerMs + delay), closeS, reopenS, bufferMs).None?
            <==> (brokerMs % 1000 + bufferMs) / 1000 < Ahead(reopenS, closeS)
  {
    hide WeekendDelay, Ahead;
    var delay := WeekendDelay(true, SecondsOfWeek(brokerMs), closeS, reopenS, bufferMs).value;
    var late := (brokerMs % 1000 + bufferMs) / 1000;
    WakesAtReopening(brokerMs, closeS, reopenS, bufferMs);
    var reopenAt := ReopenMs(brokerMs, reopenS) / 1000;
    assert (brokerMs + delay) / 1000 == reopenAt + late;
    ShiftedSecond(reopenS, reopenAt + 3 * DAY_S, late);
    var wakeS := SecondsOfWeek(brokerMs + delay);
    assert wakeS == (reopenS + late) % WEEK_S;
    SleepsWhileClosed(wakeS, closeS, reopenS, bufferMs);
    OpenSomewhere(closeS, reopenS, SecondsOfWeek(brokerMs), bufferMs);
    LateAfterReopening(closeS, reopenS, late);
  }

  /** A market that ever sleeps has distinct closing and reopening times. */
  lemma OpenSomewhere(closeS: int, reopenS: int, nowS: int, bufferMs: int)
    requires WeekendDelay(true, nowS, closeS, reopenS, bufferMs).Some?
    ensures closeS != reopenS
  {}
}
