/**
 * The login guard on a shared store: it counts in windows that begin with the first call and loses a lockout when its
 * window ends. What it answers, and exactly when that differs from the guard with the sliding window.
 */
module SharedLoginGuard {
  import opened Results
  import opened Text
  import opened Times
  import opened RateLimiting
  import opened LoginGuard

  datatype SharedRun = SharedRun(rows: Rows, answers: seq<Answer>)

  /** The rows after a sequence of calls on a store that does not fail, and the answers to the checks. */
  function RunShared(config: Config, namespaceName: string, rows: Rows, events: seq<Event>): SharedRun {
    if events == [] then SharedRun(rows, [])
    else
      var n := |events| - 1;
      var before := RunShared(config, namespaceName, rows, events[..n]);
      match events[n]
      case Check(key, now) =>
        var (next, answer) := SharedCheckStep(config, before.rows, StateKey(namespaceName, TrimSpace(key)), now);
        SharedRun(next, before.answers + [answer])
      case Failure(key, now) =>
        before.(rows := SharedFailureStep(config, before.rows, StateKey(namespaceName, TrimSpace(key)), now))
      case Success(key) => before.(rows := before.rows - {StateKey(namespaceName, TrimSpace(key))})
      case Reset => before.(rows := WithoutNamespace(before.rows, namespaceName))
  }

  // ----- windows -----

  /** The window of a call at `now`: the one that runs, or a new one. */
  function WindowAt(config: Config, start: Option<Time>, now: Time): Time {
    if start.None? || now - start.value >= config.window then now else start.value
  }

  /** When the window of a key began; a success or a reset ends it. */
  ghost function WindowOf(config: Config, events: seq<Event>, key: string): Option<Time> {
    if events == [] then None
    else
      var n := |events| - 1;
      var before := WindowOf(config, events[..n], key);
      match events[n]
      case Check(k, now) => if TrimSpace(k) == key then Some(WindowAt(config, before, now)) else before
      case Failure(k, now) => if TrimSpace(k) == key then Some(WindowAt(config, before, now)) else before
      case Success(k) => if TrimSpace(k) == key then None else before
      case Reset => None
  }

  ghost function Latest(history: seq<Time>): Time {
    if history == [] then 0 else history[|history| - 1]
  }

  /** Enough failures since the window began, and the lockout of the latest one has not ended. */
  ghost predicate SharedRefused(config: Config, history: seq<Time>, start: Time, now: Time) {
    CountBetween(history, start, now) >= config.maxAttempts && now < Latest(history) + config.lockout
  }

  ghost function SharedAnswer(config: Config, history: seq<Time>, start: Time, now: Time): Answer {
    if SharedRefused(config, history, start, now)
    then Answer(false, RetryAfterSeconds(Latest(history) + config.lockout, now)) else ALLOWED
  }

  // ----- rows stand for windows -----

  /** Failures come in order, none after `last`, and all before the end of the window. */
  ghost predicate InWindow(config: Config, start: Time, history: seq<Time>, last: Time) {
    && 0 < start <= last
    && (forall t: Time :: t in history ==> t <= Latest(history) && t <= last && t < start + config.window)
  }

  /** The row holds the failures since the window began, and the block of the latest while it lasts. */
  ghost predicate RowStandsFor(config: Config, row: WindowState, start: Time, history: seq<Time>, last: Time) {
    && InWindow(config, start, history, last)
    && row.windowStartedAt == start && row.eventCount == |Active(history, start)|
    && (row.eventCount < config.maxAttempts ==> row.blockedUntil == 0)
    && (row.eventCount >= config.maxAttempts ==>
          row.blockedUntil == Latest(history) + config.lockout
          || (row.blockedUntil == 0 && Latest(history) + config.lockout <= last))
  }

  ghost predicate KeyStandsFor(config: Config, rows: Rows, key: StateKey, start: Option<Time>, history: seq<Time>,
                               last: Time)
  {
    match start
    case None => key !in rows && history == []
    case Some(s) => key in rows && RowStandsFor(config, rows[key], s, history, last)
  }

  lemma {:induction false} NoneActive(failures: seq<Time>, cutoff: int)
    requires forall t: Time :: t in failures ==> t < cutoff
    ensures Active(failures, cutoff) == []
  {
    if failures != [] {
      var n := |failures| - 1;
      assert failures[n] in failures && forall t: Time :: t in failures[..n] ==> t in failures;
      NoneActive(failures[..n], cutoff);
    }
  }

  /** The row as a call at `now` finds it. */
  lemma NormalizedStandsFor(config: Config, rows: Rows, key: StateKey, start: Option<Time>, history: seq<Time>,
                            last: Time, now: Time)
    requires config.Valid() && KeyStandsFor(config, rows, key, start, history, last) && 0 < now && last <= now
    ensures var row := NormalizeWindowState(RowFor(rows, key, now), now, config.window, false);
            && InWindow(config, WindowAt(config, start, now), history, now)
            && RowStandsFor(config, row, WindowAt(config, start, now), history, now)
            && (row.blockedUntil != 0 ==> now < row.blockedUntil)
  {
    if start.Some? && now - start.value >= config.window {
      NoneActive(history, now);
    }
  }

  lemma SharedCheckMatches(config: Config, rows: Rows, key: StateKey, start: Option<Time>, history: seq<Time>,
                           last: Time, now: Time)
    requires config.Valid() && KeyStandsFor(config, rows, key, start, history, last) && 0 < now && last <= now
    ensures var (next, answer) := SharedCheckStep(config, rows, key, now);
            && KeyStandsFor(config, next, key, Some(WindowAt(config, start, now)), history, now)
            && answer == SharedAnswer(config, history, WindowAt(config, start, now), now)
  {
    NormalizedStandsFor(config, rows, key, start, history, last, now);
    CountIsActive(history, WindowAt(config, start, now), now);
  }

  lemma SharedFailureMatches(config: Config, rows: Rows, key: StateKey, start: Option<Time>, history: seq<Time>,
                             last: Time, now: Time)
    requires config.Valid() && KeyStandsFor(config, rows, key, start, history, last) && 0 < now && last <= now
    ensures KeyStandsFor(config, SharedFailureStep(config, rows, key, now), key, Some(WindowAt(config, start, now)),
                         history + [now], now)
  {
    NormalizedStandsFor(config, rows, key, start, history, last, now);
    ActiveAppends(history, now, WindowAt(config, start, now));
  }

  /** A run leaves the rows of every other namespace as they were, resets included. */
  lemma {:induction false} OtherNamespacesUntouched(config: Config, namespaceName: string, rows: Rows,
                                                    events: seq<Event>, key: StateKey)
    requires key.namespaceName != namespaceName
    ensures var after := RunShared(config, namespaceName, rows, events).rows;
            (key in after <==> key in rows) && (key in rows ==> after[key] == rows[key])
  {
    if events != [] {
      OtherNamespacesUntouched(config, namespaceName, rows, events[..|events| - 1], key);
    }
  }

  /** Nothing is lost as time passes for a key that is not called. */
  lemma SharedTimePasses(config: Config, rows: Rows, key: StateKey, start: Option<Time>, history: seq<Time>,
                         last: Time, now: Time)
    requires KeyStandsFor(config, rows, key, start, history, last) && last <= now
    ensures KeyStandsFor(config, rows, key, start, history, now)
  {
  }

  // ----- whole runs -----

  /** The clock reads a positive instant and never goes back. */
  ghost predicate ClockRuns(events: seq<Event>) {
    ClockNeverGoesBack(events)
    && forall i :: 0 <= i < |events| && (events[i].Check? || events[i].Failure?) ==> events[i].now > 0
  }

  ghost predicate AllKeysStandFor(config: Config, namespaceName: string, rows: Rows, events: seq<Event>) {
    forall key :: KeyStandsFor(config, rows, StateKey(namespaceName, key), WindowOf(config, events, key),
                               History(events, key), LastNow(events))
  }

  lemma SharedStepStandsFor(config: Config, namespaceName: string, rows: Rows, events: seq<Event>)
    requires config.Valid() && events != [] && ClockRuns(events)
    requires var front := events[..|events| - 1];
             AllKeysStandFor(config, namespaceName, RunShared(config, namespaceName, rows, front).rows, front)
    ensures AllKeysStandFor(config, namespaceName, RunShared(config, namespaceName, rows, events).rows, events)
  {
    var n, front := |events| - 1, events[..|events| - 1];
    var before, after := RunShared(config, namespaceName, rows, front).rows,
                         RunShared(config, namespaceName, rows, events).rows;
    forall key
      ensures KeyStandsFor(config, after, StateKey(namespaceName, key), WindowOf(config, events, key),
                           History(events, key), LastNow(events))
    {
      var start, history, last := WindowOf(config, front, key), History(front, key), LastNow(front);
      var row := StateKey(namespaceName, key);
      assert KeyStandsFor(config, before, row, start, history, last);
      match events[n] {
        case Check(k, now) =>
          if TrimSpace(k) == key {
            SharedCheckMatches(config, before, row, start, history, last, now);
          } else {
            SharedTimePasses(config, before, row, start, history, last, now);
          }
        case Failure(k, now) =>
          if TrimSpace(k) == key {
            SharedFailureMatches(config, before, row, start, history, last, now);
          } else {
            SharedTimePasses(config, before, row, start, history, last, now);
          }
        case Success(k) =>
        case Reset =>
      }
    }
  }

  lemma {:induction false} SharedRunStandsFor(config: Config, namespaceName: string, rows: Rows, events: seq<Event>)
    requires config.Valid() && ClockRuns(events) && forall key :: StateKey(namespaceName, key) !in rows
    ensures AllKeysStandFor(config, namespaceName, RunShared(config, namespaceName, rows, events).rows, events)
  {
    if events != [] {
      assert ClockRuns(events[..|events| - 1]);
      SharedRunStandsFor(config, namespaceName, rows, events[..|events| - 1]);
      SharedStepStandsFor(config, namespaceName, rows, events);
    }
  }

  /**
   * After any calls, in any order and for any keys, a check on the shared store refuses exactly when the window that
   * runs holds enough failures and the lockout of the latest has not ended, and gives its remaining time.
   */
  lemma SharedGuardAnswersByWindow(config: Config, namespaceName: string, rows: Rows, events: seq<Event>, key: string,
                                   now: Time)
    requires config.Valid() && ClockRuns(events) && 0 < now && LastNow(events) <= now
    requires forall k :: StateKey(namespaceName, k) !in rows
    ensures var state := RunShared(config, namespaceName, rows, events).rows;
            SharedCheckStep(config, state, StateKey(namespaceName, key), now).1
            == SharedAnswer(config, History(events, key), WindowAt(config, WindowOf(config, events, key), now), now)
  {
    SharedRunStandsFor(config, namespaceName, rows, events);
    SharedCheckMatches(config, RunShared(config, namespaceName, rows, events).rows, StateKey(namespaceName, key),
                       WindowOf(config, events, key), History(events, key), LastNow(events), now);
  }

  // ----- against the sliding window -----

  lemma {:induction false} CountGrows(failures: seq<Time>, low: int, high: int, low': int, high': int)
    requires low' <= low && forall t: Time :: t in failures && low <= t <= high ==> t <= high'
    ensures CountBetween(failures, low, high) <= CountBetween(failures, low', high')
  {
    if failures != [] {
      var n := |failures| - 1;
      assert failures[n] in failures && forall t: Time :: t in failures[..n] ==> t in failures;
      CountGrows(failures[..n], low, high, low', high');
    }
  }

  /** Within a window with enough failures the latest failure is the latest trigger. */
  lemma LatestTriggers(config: Config, history: seq<Time>, start: Time, now: Time)
    requires config.Valid() && InWindow(config, start, history, now) && now - start < config.window
    requires CountBetween(history, start, now) >= config.maxAttempts
    ensures history != [] && Trigger(config, history, Latest(history))
    ensures forall u: Time :: Trigger(config, history, u) ==> u <= Latest(history)
  {
    var t := Latest(history);
    assert history != [] && history[|history| - 1] in history;
    CountGrows(history, start, now, t - config.window, t);
  }

  /** A refusal by the window is one by the history, with the same time; a window with too few failures differs. */
  lemma WindowAgainstHistory(config: Config, history: seq<Time>, start: Time, now: Time, answer: Answer)
    requires config.Valid() && InWindow(config, start, history, now) && now - start < config.window
    requires FullHistoryAnswer(config, history, now, answer)
    ensures SharedAnswer(config, history, start, now) == answer
       <==> (Refused(config, history, now) ==> CountBetween(history, start, now) >= config.maxAttempts)
    ensures !SharedAnswer(config, history, start, now).allowed ==> SharedAnswer(config, history, start, now) == answer
  {
    if CountBetween(history, start, now) >= config.maxAttempts {
      LatestTriggers(config, history, start, now);
    }
  }

  /**
   * The two forms of the guard give different answers exactly when the local one refuses and the shared one's running
   * window holds too few failures; then the shared one allows. So the shared guard never refuses more, and it loses
   * a lockout just when its window has ended without as many failures in the next.
   */
  lemma SharedDiffersIff(config: Config, namespaceName: string, rows: Rows, events: seq<Event>, key: string, now: Time)
    requires config.Valid() && ClockRuns(events) && 0 < now && LastNow(events) <= now
    requires forall k :: StateKey(namespaceName, k) !in rows
    ensures var shared := SharedCheckStep(config, RunShared(config, namespaceName, rows, events).rows,
                                          StateKey(namespaceName, key), now).1;
            var local := CheckStep(config, Run(config, events).states, key, now).1;
            var start := WindowAt(config, WindowOf(config, events, key), now);
            && (shared != local <==> !local.allowed
                                     && CountBetween(History(events, key), start, now) < config.maxAttempts)
            && (shared != local ==> shared.allowed)
  {
    var history, start := History(events, key), WindowAt(config, WindowOf(config, events, key), now);
    SharedGuardAnswersByWindow(config, namespaceName, rows, events, key, now);
    SharedRunStandsFor(config, namespaceName, rows, events);
    var state := RunShared(config, namespaceName, rows, events).rows;
    NormalizedStandsFor(config, state, StateKey(namespaceName, key), WindowOf(config, events, key), history,
                        LastNow(events), now);
    RunStandsForHistory(config, events);
    CheckMatches(config, Run(config, events).states, key, history, LastNow(events), now);
    WindowAgainstHistory(config, history, start, now, CheckStep(config, Run(config, events).states, key, now).1);
  }

  // ----- a lockout lost -----

  /** A check at `start`, then `n` failures in the last instant of the window it begins. */
  function LateFailures(key: string, start: Time, last: Time, n: nat): (events: seq<Event>)
    ensures events != []
  {
    if n == 0 then [Check(key, start)] else LateFailures(key, start, last, n - 1) + [Failure(key, last)]
  }

  lemma {:induction false} LateClock(key: string, start: Time, last: Time, n: nat)
    requires 0 < start <= last
    ensures var events := LateFailures(key, start, last, n);
            ClockRuns(events) && LastNow(events) == if n == 0 then start else last
  {
    var events := LateFailures(key, start, last, n);
    if n == 0 {
      assert events[..0] == [];
    } else {
      LateClock(key, start, last, n - 1);
      assert events[..|events| - 1] == LateFailures(key, start, last, n - 1);
    }
  }

  lemma CallOpensWindow(config: Config, front: seq<Event>, call: Event, key: string)
    requires (call.Check? || call.Failure?) && TrimSpace(call.key) == key
    ensures WindowOf(config, front + [call], key) == Some(WindowAt(config, WindowOf(config, front, key), call.now))
    ensures History(front + [call], key) == History(front, key) + if call.Failure? then [call.now] else []
  {
    assert (front + [call])[..|front|] == front;
  }

  lemma {:induction false} LateWindow(config: Config, key: string, start: Time, last: Time, n: nat)
    requires TrimSpace(key) == key && 0 < start <= last < start + config.window
    ensures WindowOf(config, LateFailures(key, start, last, n), key) == Some(start)
  {
    if n == 0 {
      CallOpensWindow(config, [], Check(key, start), key);
      assert [] + [Check(key, start)] == LateFailures(key, start, last, n);
    } else {
      LateWindow(config, key, start, last, n - 1);
      CallOpensWindow(config, LateFailures(key, start, last, n - 1), Failure(key, last), key);
    }
  }

  lemma {:induction false} LateHistory(config: Config, key: string, start: Time, last: Time, n: nat)
    requires TrimSpace(key) == key
    ensures var history := History(LateFailures(key, start, last, n), key);
            |history| == n && forall t: Time :: t in history ==> t == last
  {
    if n == 0 {
      CallOpensWindow(config, [], Check(key, start), key);
      assert [] + [Check(key, start)] == LateFailures(key, start, last, n);
    } else {
      LateHistory(config, key, start, last, n - 1);
      CallOpensWindow(config, LateFailures(key, start, last, n - 1), Failure(key, last), key);
    }
  }

  lemma {:induction false} CountOfOne(failures: seq<Time>, t: Time, low: int, high: int)
    requires forall u: Time :: u in failures ==> u == t
    ensures CountBetween(failures, low, high) == if low <= t <= high then |failures| else 0
  {
    if failures != [] {
      var n := |failures| - 1;
      assert failures[n] in failures && forall u: Time :: u in failures[..n] ==> u in failures;
      CountOfOne(failures[..n], t, low, high);
    }
  }

  /** The late failures lock the key, and the next window begins without any. */
  lemma LateTrigger(config: Config, key: string, start: Time)
    requires config.Valid() && 0 < start && TrimSpace(key) == key
    ensures var last, now := start + config.window - 1, start + config.window;
            var events := LateFailures(key, start, last, config.maxAttempts);
            && Trigger(config, History(events, key), last)
            && WindowAt(config, WindowOf(config, events, key), now) == now
            && CountBetween(History(events, key), now, now) == 0
  {
    var last, now := start + config.window - 1, start + config.window;
    var history := History(LateFailures(key, start, last, config.maxAttempts), key);
    LateWindow(config, key, start, last, config.maxAttempts);
    LateHistory(config, key, start, last, config.maxAttempts);
    CountOfOne(history, last, now, now);
    CountOfOne(history, last, last - config.window, last);
    assert history[0] in history;
  }

  lemma {:induction false} LateFailuresLock(config: Config, key: string, start: Time)
    requires config.Valid() && config.lockout >= 2 && 0 < start && TrimSpace(key) == key
    ensures var last, now := start + config.window - 1, start + config.window;
            var events := LateFailures(key, start, last, config.maxAttempts);
            && ClockRuns(events) && 0 < now && LastNow(events) <= now
            && Trigger(config, History(events, key), last) && now < last + config.lockout
            && WindowAt(config, WindowOf(config, events, key), now) == now
            && CountBetween(History(events, key), now, now) == 0
  {
    LateClock(key, start, start + config.window - 1, config.maxAttempts);
    LateTrigger(config, key, start);
  }

  /** A lockout that runs and a new window without failures: the local guard refuses, the shared one does not. */
  lemma LockoutLost(config: Config, namespaceName: string, events: seq<Event>, key: string, now: Time, t: Time)
    requires config.Valid() && ClockRuns(events) && 0 < now && LastNow(events) <= now
    requires Trigger(config, History(events, key), t) && now < t + config.lockout
    requires WindowAt(config, WindowOf(config, events, key), now) == now
    requires CountBetween(History(events, key), now, now) == 0
    ensures !CheckStep(config, Run(config, events).states, key, now).1.allowed
    ensures SharedCheckStep(config, RunShared(config, namespaceName, map[], events).rows,
                            StateKey(namespaceName, key), now).1 == ALLOWED
  {
    SharedGuardAnswersByWindow(config, namespaceName, map[], events, key, now);
    RunStandsForHistory(config, events);
    CheckMatches(config, Run(config, events).states, key, History(events, key), LastNow(events), now);
    assert Refused(config, History(events, key), now);
  }

  /** Whatever the configuration, enough failures at the end of a window lock the local guard and not the shared one. */
  lemma {:induction false} LockoutEndsWithWindow(config: Config, namespaceName: string, key: string, start: Time)
    requires config.Valid() && config.lockout >= 2 && 0 < start && TrimSpace(key) == key
    ensures var events := LateFailures(key, start, start + config.window - 1, config.maxAttempts);
            var now := start + config.window;
            && !CheckStep(config, Run(config, events).states, key, now).1.allowed
            && SharedCheckStep(config, RunShared(config, namespaceName, map[], events).rows,
                               StateKey(namespaceName, key), now).1 == ALLOWED
  {
    LateFailuresLock(config, key, start);
    LockoutLost(config, namespaceName, LateFailures(key, start, start + config.window - 1, config.maxAttempts), key,
                start + config.window, start + config.window - 1);
  }
}
