/** The duplicate-log limiter: how often one message can reach the log file. */
module RateLimiter {
  import opened Messages
  import opened TimerTasks

  /** When the current window of a message hash began, and how many calls it has had. */
  datatype LogInfo = LogInfo(firstTime: int, count: int)

  /** One call of `Log`: the hash of its message, the clock it reads first, and the clock the
      cleanup reads after it. */
  datatype LogCall = LogCall(hash: int, now: int, cleanupNow: int)

  /** `duration_cast<seconds>` of a clock difference. */
  function Seconds(ticks: int): int {
    TruncDiv(ticks, TICKS_PER_SECOND)
  }

  function Expired(info: LogInfo, now: int, window: int): bool {
    Seconds(now - info.firstTime) > window
  }

  /** What `cleanupExpiredLogs` leaves. */
  function Cleaned(m: map<int, LogInfo>, now: int, window: int): map<int, LogInfo> {
    map h | h in m && !Expired(m[h], now, window) :: m[h]
  }

  /** The same, with the entries of `left` not looked at yet. */
  function PartlyCleaned(m: map<int, LogInfo>, left: set<int>, now: int, window: int): map<int, LogInfo> {
    map h | h in m && (h in left || !Expired(m[h], now, window)) :: m[h]
  }

  /** The map after one call, and whether the call writes. */
  function OneLog(m: map<int, LogInfo>, c: LogCall, threshold: int, window: int): (map<int, LogInfo>, bool) {
    var live := Cleaned(m, c.cleanupNow, window);
    if c.hash in live then
      var info := live[c.hash];
      if Seconds(c.now - info.firstTime) <= window then
        var counted := info.(count := info.count + 1);
        (live[c.hash := counted], counted.count < threshold)
      else (live[c.hash := LogInfo(c.now, 1)], true)
    else (live[c.hash := LogInfo(c.now, 1)], true)
  }

  lemma SomeKey(keys: set<int>)
    requires keys != {}
    ensures exists h :: h in keys
  {
    assert (forall h :: h !in keys) ==> keys == {};
  }

  class RbmqLogger {
    var logMap: map<int, LogInfo>
    var logThreshold: int
    var logTimeWindow: int
    var written: seq<int>   // hashes of the messages handed to writeLog

    constructor ()
      ensures logMap == map[] && logThreshold == 5 && logTimeWindow == 10 && written == []
    {
      logMap, logThreshold, logTimeWindow, written := map[], 5, 10, [];
    }

    method SetThreshold(threshold: int, timeWindow: int)
      modifies this`logThreshold, this`logTimeWindow
      ensures logThreshold == threshold && logTimeWindow == timeWindow
    {
      logThreshold := threshold;
      logTimeWindow := timeWindow;
    }

    /** Walks the entries in any order, erasing the expired ones. */
    method CleanupExpiredLogs(now: int)
      modifies this`logMap
      ensures logMap == Cleaned(old(logMap), now, logTimeWindow)
    {
      var left := logMap.Keys;
      while left != {}
        invariant left <= old(logMap).Keys
        invariant logMap == PartlyCleaned(old(logMap), left, now, logTimeWindow)
      {
        SomeKey(left);
        var h :| h in left;
        left := left - {h};
        if Seconds(now - logMap[h].firstTime) > logTimeWindow {
          logMap := logMap - {h};
        }
      }
    }

    method Log(c: LogCall) returns (wrote: bool)
      modifies this`logMap, this`written
      ensures (logMap, wrote) == OneLog(old(logMap), c, logThreshold, logTimeWindow)
      ensures written == old(written) + if wrote then [c.hash] else []
    {
      CleanupExpiredLogs(c.cleanupNow);
      if c.hash in logMap {
        var info := logMap[c.hash];
        if Seconds(c.now - info.firstTime) <= logTimeWindow {
          logMap := logMap[c.hash := info.(count := info.count + 1)];
          if logMap[c.hash].count >= logThreshold {
            return false;
          }
        } else {
          logMap := logMap[c.hash := LogInfo(c.now, 1)];
        }
      } else {
        logMap := logMap[c.hash := LogInfo(c.now, 1)];
      }
      written := written + [c.hash];
      return true;
    }
  }

  // ---------------------------------------------------------------- runs with fixed limits

  /** The limits of a run, and the most the two clock reads of one call are apart. */
  datatype Limits = Limits(threshold: int, window: int, skew: int)

  function MapAfter(calls: seq<LogCall>, l: Limits): map<int, LogInfo> {
    if calls == [] then map[]
    else OneLog(MapAfter(calls[..|calls| - 1], l), calls[|calls| - 1], l.threshold, l.window).0
  }

  predicate Wrote(calls: seq<LogCall>, l: Limits)
    requires calls != []
  {
    OneLog(MapAfter(calls[..|calls| - 1], l), calls[|calls| - 1], l.threshold, l.window).1
  }

  /** The clock is monotone over the run; each call holds the mutex, so calls do not overlap. */
  ghost predicate Monotone(calls: seq<LogCall>, l: Limits) {
    && (forall i :: 0 <= i < |calls| ==> calls[i].now <= calls[i].cleanupNow <= calls[i].now + l.skew)
    && (forall i, j :: 0 <= i < j < |calls| ==> calls[i].cleanupNow <= calls[j].now)
  }

  /** The last call finds a live entry of its hash. */
  predicate Continues(calls: seq<LogCall>, l: Limits)
    requires calls != []
  {
    var c := calls[|calls| - 1];
    c.hash in Cleaned(MapAfter(calls[..|calls| - 1], l), c.cleanupNow, l.window)
  }

  lemma {:induction false} FirstTimes(calls: seq<LogCall>, l: Limits)
    requires Monotone(calls, l)
    ensures forall h :: h in MapAfter(calls, l) ==> MapAfter(calls, l)[h].count >= 1
    ensures calls != [] ==>
      forall h :: h in MapAfter(calls, l) ==> MapAfter(calls, l)[h].firstTime <= calls[|calls| - 1].now
  {
    if calls != [] {
      FirstTimes(calls[..|calls| - 1], l);
    }
  }

  /** The branch that restarts a window inside a live entry is never taken: the cleanup, reading a clock
      no earlier than the call's own, has already dropped every entry that branch would restart. */
  lemma ResetBranchIsDead(calls: seq<LogCall>, l: Limits)
    requires calls != [] && Monotone(calls, l) && Continues(calls, l)
    ensures var c := calls[|calls| - 1];
      Seconds(c.now - MapAfter(calls[..|calls| - 1], l)[c.hash].firstTime) <= l.window
  {
    var c := calls[|calls| - 1];
    FirstTimes(calls[..|calls| - 1], l);
    var first := MapAfter(calls[..|calls| - 1], l)[c.hash].firstTime;
    assert first <= c.now;
    SecondsMonotone(c.now - first, c.cleanupNow - first);
  }

  lemma SecondsMonotone(a: int, b: int)
    requires 0 <= a <= b
    ensures Seconds(a) <= Seconds(b)
  {
  }

  /** What the last call of a run does, without the dead branch. */
  lemma LastCall(calls: seq<LogCall>, l: Limits)
    requires calls != [] && Monotone(calls, l)
    ensures var c := calls[|calls| - 1];
      var before := MapAfter(calls[..|calls| - 1], l);
      && c.hash in MapAfter(calls, l)
      && MapAfter(calls, l)[c.hash]
         == (if Continues(calls, l) then before[c.hash].(count := before[c.hash].count + 1) else LogInfo(c.now, 1))
      && (Wrote(calls, l) <==> Continues(calls, l) ==> before[c.hash].count + 1 < l.threshold)
      && (forall h :: h != c.hash && h in MapAfter(calls, l) ==> h in before && MapAfter(calls, l)[h] == before[h])
  {
    if Continues(calls, l) {
      ResetBranchIsDead(calls, l);
    }
  }

  // ---------------------------------------------------------------- windows, from the calls alone

  /** When the current window of hash h began: the clock of the latest call for h that was the first one or
      whose cleanup read a clock at least window + 1 seconds past the beginning of the window before it. */
  function WindowStart(calls: seq<LogCall>, l: Limits, h: int): Option<int> {
    if calls == [] then None
    else
      var past, c := WindowStart(calls[..|calls| - 1], l, h), calls[|calls| - 1];
      if c.hash == h && (past.None? || c.cleanupNow - past.value >= (l.window + 1) * 1_000_000_000) then Some(c.now)
      else past
  }

  /** The last call falls into a window begun by an earlier call. */
  predicate InOpenWindow(calls: seq<LogCall>, l: Limits)
    requires calls != []
  {
    var c := calls[|calls| - 1];
    var start := WindowStart(calls[..|calls| - 1], l, c.hash);
    start.Some? && c.cleanupNow - start.value < (l.window + 1) * 1_000_000_000
  }

  /** The map holds the current window of every hash, except windows that have run out. */
  lemma {:induction false} MapHoldsWindows(calls: seq<LogCall>, l: Limits, h: int)
    requires Monotone(calls, l)
    ensures h in MapAfter(calls, l) ==> WindowStart(calls, l, h) == Some(MapAfter(calls, l)[h].firstTime)
    ensures WindowStart(calls, l, h).Some? ==>
      && calls != [] && WindowStart(calls, l, h).value <= calls[|calls| - 1].cleanupNow
      && (h in MapAfter(calls, l)
          || calls[|calls| - 1].cleanupNow - WindowStart(calls, l, h).value >= (l.window + 1) * 1_000_000_000)
  {
    if calls != [] {
      MapHoldsWindows(calls[..|calls| - 1], l, h);
      LastCall(calls, l);
      OpenByMap(calls, l, h);
      if |calls| > 1 { LastIsLater(calls, l); }
    }
  }

  /** An entry survives the cleanup exactly while its window has not run out. */
  lemma OpenByMap(calls: seq<LogCall>, l: Limits, h: int)
    requires calls != [] && Monotone(calls, l)
    ensures var c, before := calls[|calls| - 1], MapAfter(calls[..|calls| - 1], l);
      var live := Cleaned(before, c.cleanupNow, l.window);
      && (h in before ==> (h in live <==> c.cleanupNow - before[h].firstTime < (l.window + 1) * 1_000_000_000))
      && (h != c.hash ==> (h in MapAfter(calls, l) <==> h in live))
  {
    var c, past := calls[|calls| - 1], calls[..|calls| - 1];
    FirstTimes(past, l);
    if |calls| > 1 { LastIsLater(calls, l); }
    if h in MapAfter(past, l) {
      assert MapAfter(past, l)[h].firstTime <= c.cleanupNow;
    }
  }

  /** A call finds its window open exactly if less than window + 1 seconds have gone by since it began. */
  lemma ContinuesExactlyInOpenWindow(calls: seq<LogCall>, l: Limits)
    requires calls != [] && Monotone(calls, l)
    ensures Continues(calls, l) <==> InOpenWindow(calls, l)
  {
    var c, past := calls[|calls| - 1], calls[..|calls| - 1];
    MapHoldsWindows(past, l, c.hash);
    OpenByMap(calls, l, c.hash);
    if |calls| > 1 { LastIsLater(calls, l); }
  }

  /** The most writes one window can hold. */
  function PerWindow(l: Limits): (m: int)
    ensures m >= 1
  {
    if l.threshold - 1 >= 1 then l.threshold - 1 else 1
  }

  function Min(a: int, b: int): int {
    if a <= b then a else b
  }

  /** Writes of hash h since its current window began. */
  function WindowWrites(calls: seq<LogCall>, l: Limits, h: int): nat {
    if calls == [] then 0
    else
      var past := calls[..|calls| - 1];
      if calls[|calls| - 1].hash != h then WindowWrites(past, l, h)
      else if !Continues(calls, l) then 1
      else WindowWrites(past, l, h) + if Wrote(calls, l) then 1 else 0
  }

  lemma {:induction false} WindowCount(calls: seq<LogCall>, l: Limits, h: int)
    requires Monotone(calls, l) && h in MapAfter(calls, l)
    ensures WindowWrites(calls, l, h) == Min(MapAfter(calls, l)[h].count, PerWindow(l))
  {
    var past := calls[..|calls| - 1];
    LastCall(calls, l);
    FirstTimes(past, l);
    if calls[|calls| - 1].hash != h || Continues(calls, l) {
      WindowCount(past, l, h);
    }
  }

  /** A call is suppressed exactly when its window is still open and already holds all the writes it
      may hold. */
  lemma SuppressedExactlyWhenFull(calls: seq<LogCall>, l: Limits)
    requires calls != [] && Monotone(calls, l)
    ensures !Wrote(calls, l) <==>
      && InOpenWindow(calls, l)
      && WindowWrites(calls[..|calls| - 1], l, calls[|calls| - 1].hash)
         == if l.threshold > 2 then l.threshold - 1 else 1
  {
    ContinuesExactlyInOpenWindow(calls, l);
    LastCall(calls, l);
    FirstTimes(calls[..|calls| - 1], l);
    if Continues(calls, l) {
      WindowCount(calls[..|calls| - 1], l, calls[|calls| - 1].hash);
    }
  }

  // ---------------------------------------------------------------- the rate bound

  /** Writes of hash h by calls whose clock lies in [from, to]. */
  function WritesIn(calls: seq<LogCall>, l: Limits, h: int, from: int, to: int): nat {
    if calls == [] then 0
    else
      var c := calls[|calls| - 1];
      WritesIn(calls[..|calls| - 1], l, h, from, to)
        + if c.hash == h && from <= c.now <= to && Wrote(calls, l) then 1 else 0
  }

  /** Windows of hash h begun by calls whose clock is at least `from`. */
  function WindowsFrom(calls: seq<LogCall>, l: Limits, h: int, from: int): nat {
    if calls == [] then 0
    else
      var c := calls[|calls| - 1];
      WindowsFrom(calls[..|calls| - 1], l, h, from)
        + if c.hash == h && from <= c.now && !Continues(calls, l) then 1 else 0
  }

  /** The clock at which the latest of those windows began. */
  function LatestWindow(calls: seq<LogCall>, l: Limits, h: int, from: int): int {
    if calls == [] then from
    else
      var c := calls[|calls| - 1];
      if c.hash == h && from <= c.now && !Continues(calls, l) then c.now
      else LatestWindow(calls[..|calls| - 1], l, h, from)
  }

  /** The least distance between the beginnings of two windows of one hash. */
  function Spacing(l: Limits): int {
    (l.window + 1) * TICKS_PER_SECOND - l.skew
  }

  /** n summands d. */
  function Times(n: nat, d: int): (r: int)
    ensures d >= 0 ==> r >= 0
  {
    if n == 0 then 0 else Times(n - 1, d) + d
  }

  lemma {:induction false} TimesIsProduct(n: nat, d: int)
    ensures Times(n, d) == n * d
  {
    if n > 0 {
      TimesIsProduct(n - 1, d);
    }
  }

  /** Windows begin at least `Spacing` apart, and an entry that is gone is as old. */
  ghost predicate Spaced(calls: seq<LogCall>, l: Limits, h: int, from: int) {
    WindowsFrom(calls, l, h, from) >= 1 ==>
      && calls != []
      && LatestWindow(calls, l, h, from) >= from + Times(WindowsFrom(calls, l, h, from) - 1, Spacing(l))
      && from <= LatestWindow(calls, l, h, from) <= calls[|calls| - 1].now
      && if h in MapAfter(calls, l) then MapAfter(calls, l)[h].firstTime == LatestWindow(calls, l, h, from)
         else calls[|calls| - 1].now >= LatestWindow(calls, l, h, from) + Spacing(l)
  }

  /** An entry that the next call's cleanup drops is a whole spacing old by then. */
  lemma GoneIsOld(calls: seq<LogCall>, l: Limits, h: int)
    requires Monotone(calls, l) && l.window >= 0 && calls != []
    requires h in MapAfter(calls[..|calls| - 1], l)
    requires h !in Cleaned(MapAfter(calls[..|calls| - 1], l), calls[|calls| - 1].cleanupNow, l.window)
    ensures calls[|calls| - 1].now >= MapAfter(calls[..|calls| - 1], l)[h].firstTime + Spacing(l)
  {
  }

  /** The clock of the last call is not before any earlier one. */
  lemma LastIsLater(calls: seq<LogCall>, l: Limits)
    requires Monotone(calls, l) && |calls| > 1
    ensures calls[|calls| - 2].now <= calls[|calls| - 1].now
    ensures calls[..|calls| - 1][|calls| - 2] == calls[|calls| - 2]
  {
  }

  lemma SpacedByCall(calls: seq<LogCall>, l: Limits, h: int, from: int)
    requires Monotone(calls, l) && l.window >= 0 && calls != []
    requires Spaced(calls[..|calls| - 1], l, h, from)
    ensures Spaced(calls, l, h, from)
  {
    var past := calls[..|calls| - 1];
    LastCall(calls, l);
    if past != [] { LastIsLater(calls, l); }
    var c := calls[|calls| - 1];
    if h in MapAfter(past, l) && h !in Cleaned(MapAfter(past, l), c.cleanupNow, l.window) {
      GoneIsOld(calls, l, h);
    }
    if c.hash == h && !Continues(calls, l) {
      assert MapAfter(calls, l)[h] == LogInfo(c.now, 1);
    } else if c.hash == h {
      assert MapAfter(calls, l)[h].firstTime == MapAfter(past, l)[h].firstTime;
    } else {
      assert h in MapAfter(calls, l) ==> MapAfter(calls, l)[h] == MapAfter(past, l)[h];
    }
  }

  lemma {:induction false} WindowsAreSpaced(calls: seq<LogCall>, l: Limits, h: int, from: int)
    requires Monotone(calls, l) && l.window >= 0
    ensures Spaced(calls, l, h, from)
  {
    if calls != [] {
      WindowsAreSpaced(calls[..|calls| - 1], l, h, from);
      SpacedByCall(calls, l, h, from);
    }
  }

  /** What the current window of h has held, or a full window if it is gone. */
  function Held(calls: seq<LogCall>, l: Limits, h: int): int {
    if h in MapAfter(calls, l) then Min(MapAfter(calls, l)[h].count, PerWindow(l)) else PerWindow(l)
  }

  /** One call adds at most what its window still has room for. */
  lemma HeldByCall(calls: seq<LogCall>, l: Limits, h: int)
    requires Monotone(calls, l) && calls != []
    ensures 0 <= Held(calls, l, h) <= PerWindow(l)
    ensures calls[|calls| - 1].hash != h ==> Held(calls, l, h) >= Held(calls[..|calls| - 1], l, h)
    ensures calls[|calls| - 1].hash == h && Continues(calls, l) ==>
      Held(calls, l, h) >= Held(calls[..|calls| - 1], l, h) + if Wrote(calls, l) then 1 else 0
    ensures calls[|calls| - 1].hash == h && !Continues(calls, l) ==> Held(calls, l, h) == 1
  {
    FirstTimes(calls[..|calls| - 1], l);
    FirstTimes(calls, l);
    LastCall(calls, l);
  }

  /** Writes since `from`: a full window for each window begun since, plus what the current one has held. */
  lemma {:induction false} WritesByWindow(calls: seq<LogCall>, l: Limits, h: int, from: int, to: int)
    requires Monotone(calls, l)
    requires forall i :: 0 <= i < |calls| ==> calls[i].now <= to
    ensures WritesIn(calls, l, h, from, to) <= Times(WindowsFrom(calls, l, h, from), PerWindow(l)) + Held(calls, l, h)
    ensures Held(calls, l, h) <= PerWindow(l)
    ensures calls != [] && calls[|calls| - 1].now < from ==> WritesIn(calls, l, h, from, to) == 0
  {
    if calls != [] {
      var past := calls[..|calls| - 1];
      WritesByWindow(past, l, h, from, to);
      HeldByCall(calls, l, h);
      if past != [] { LastIsLater(calls, l); }
      assert calls[|calls| - 1].now <= to;
    }
  }

  /** Any interval of clock values [from, to] sees at most
      (floor((to - from) / spacing) + 2) * max(1, threshold - 1) writes of one message. With both clock
      reads of a call equal, the spacing is window + 1 seconds. */
  lemma {:induction false} RateBound(calls: seq<LogCall>, l: Limits, h: int, from: int, to: int)
    requires Monotone(calls, l) && l.window >= 0 && from <= to
    requires (l.window + 1) * 1_000_000_000 > l.skew
    ensures WritesIn(calls, l, h, from, to)
         <= ((to - from) / ((l.window + 1) * 1_000_000_000 - l.skew) + 2)
            * (if l.threshold > 2 then l.threshold - 1 else 1)
  {
    if calls != [] && calls[|calls| - 1].now > to {
      RateBound(calls[..|calls| - 1], l, h, from, to);
    } else {
      var n := WindowsFrom(calls, l, h, from);
      var m := PerWindow(l);
      LastIsLatest(calls, l);
      WritesByWindow(calls, l, h, from, to);
      WindowsAreSpaced(calls, l, h, from);
      if n >= 1 { TimesIsProduct(n - 1, Spacing(l)); }
      CountBound(to - from, n, Spacing(l));
      TimesIsProduct(n + 1, m);
      AtMost(n + 1, (to - from) / Spacing(l) + 2, m);
    }
  }

  lemma LastIsLatest(calls: seq<LogCall>, l: Limits)
    requires Monotone(calls, l)
    ensures forall i :: 0 <= i < |calls| ==> calls[i].now <= calls[|calls| - 1].now
  {
  }

  /** n marks spaced d apart fit into a length only if (n - 1) * d does. */
  lemma CountBound(length: int, n: int, d: int)
    requires d > 0 && length >= 0 && (n >= 1 ==> (n - 1) * d <= length)
    ensures n <= length / d + 1
  {
    if n - 1 > length / d {
      AtMost(length / d + 1, n - 1, d);
    }
  }

  lemma AtMost(a: int, b: int, m: int)
    requires a <= b && m >= 0
    ensures a * m <= b * m
  {
  }

  /** With a negative window the limiter is off: every call writes. */
  lemma NegativeWindowWritesAll(calls: seq<LogCall>, l: Limits)
    requires calls != [] && Monotone(calls, l) && l.window < 0
    ensures Wrote(calls, l)
  {
    FirstTimes(calls[..|calls| - 1], l);
  }
}
