/** The request rate limiter: a fixed window with blocking, held in a local map or in rows of a shared store. */
module RequestLimiter {
  import opened Results
  import opened Times
  import opened RateLimiting

  /** A window and a threshold are positive; no block duration means blocking to the end of the window. */
  datatype Config = Config(maxRequests: nat, window: nat, blockDuration: nat) {
    ghost predicate Valid() { maxRequests >= 1 && window >= 1 }
  }

  function MakeConfig(maxRequests: int, windowSeconds: int, blockSeconds: int): (config: Config)
    ensures config.Valid()
    ensures config.maxRequests == (if maxRequests > 1 then maxRequests else 1)
    ensures config.window == (if windowSeconds > 1 then windowSeconds else 1) * 1_000_000_000
    ensures config.blockDuration == (if blockSeconds > 0 then blockSeconds else 0) * 1_000_000_000
  {
    Config(AtLeast(maxRequests, 1), AtLeast(windowSeconds, 1) * NANOS_PER_SECOND,
           AtLeast(blockSeconds, 0) * NANOS_PER_SECOND)
  }

  type Windows = map<string, WindowState>

  function BlockedUntilFor(config: Config, windowStartedAt: Time, now: Time): Time {
    if config.blockDuration > 0 then now + config.blockDuration else windowStartedAt + config.window
  }

  // ----- local form -----

  function NormalizedLocal(config: Config, windows: Windows, key: string, now: Time): WindowState {
    if key !in windows || windows[key].windowStartedAt == 0 then WindowState(0, now, 0)
    else if now - windows[key].windowStartedAt >= config.window then WindowState(0, now, 0)
    else if windows[key].blockedUntil != 0 && now >= windows[key].blockedUntil then WindowState(0, now, 0)
    else windows[key]
  }

  /** The state a local call leaves for its key, and its answer. */
  function ConsumeWindow(config: Config, state: WindowState, now: Time): (WindowState, Answer) {
    if state.blockedUntil != 0 && now < state.blockedUntil then
      (state, Answer(false, RetryAfterSeconds(state.blockedUntil, now)))
    else
      var counted := state.(eventCount := state.eventCount + 1);
      if counted.eventCount <= config.maxRequests then (counted, ALLOWED)
      else
        var until := BlockedUntilFor(config, counted.windowStartedAt, now);
        (counted.(blockedUntil := until), Answer(false, RetryAfterSeconds(until, now)))
  }

  function LocalStep(config: Config, windows: Windows, key: string, now: Time): (Windows, Answer) {
    var (state, answer) := ConsumeWindow(config, NormalizedLocal(config, windows, key, now), now);
    (windows[key := state], answer)
  }

  // ----- distributed form -----

  function ConsumeRow(config: Config, row: WindowState, now: Time): Mutation<Answer> {
    var normalized := NormalizeWindowState(row, now, config.window, true);
    if normalized.blockedUntil != 0 && now < normalized.blockedUntil then
      Mutation(normalized, false, Answer(false, RetryAfterSeconds(normalized.blockedUntil, now)))
    else
      var count := normalized.eventCount + 1;
      if count > config.maxRequests then
        var until := BlockedUntilFor(config, normalized.windowStartedAt, now);
        Mutation(WindowState(count, normalized.windowStartedAt, until), true,
                 Answer(false, RetryAfterSeconds(until, now)))
      else
        Mutation(WindowState(count, normalized.windowStartedAt, normalized.blockedUntil), true, ALLOWED)
  }

  function DistributedStep(config: Config, rows: Rows, key: StateKey, now: Time): (Rows, Answer) {
    var row := RowFor(rows, key, now);
    var mutation := ConsumeRow(config, row, now);
    (rows[key := if mutation.persist then mutation.next else row], mutation.answer)
  }

  class RequestRateLimiter {
    const config: Config
    const namespaceName: string
    var store: RateLimitStore?
    var windows: Windows

    constructor (maxRequests: int, windowSeconds: int, blockSeconds: int, namespaceName: string)
      ensures config == MakeConfig(maxRequests, windowSeconds, blockSeconds)
      ensures this.namespaceName == namespaceName && windows == map[] && store == null
    {
      config := MakeConfig(maxRequests, windowSeconds, blockSeconds);
      this.namespaceName := namespaceName;
      windows, store := map[], null;
    }

    method SetDistributedStore(store: RateLimitStore?)
      modifies `store
      ensures this.store == store
    {
      this.store := store;
    }

    /** Clears the local windows and, unless the store fails, the rows of the namespace. */
    method Reset()
      modifies `windows, store
      ensures windows == map[]
      ensures store != null ==>
                store.rows == old(store.rows) || store.rows == WithoutNamespace(old(store.rows), namespaceName)
    {
      windows := map[];
      if store != null {
        var _ := store.ClearNamespace(namespaceName);
      }
    }

    method ConsumeLocal(key: string, now: Time) returns (answer: Answer)
      modifies `windows
      ensures (windows, answer) == LocalStep(config, old(windows), key, now)
    {
      var state := NormalizedLocal(config, windows, key, now);
      if state.blockedUntil != 0 && now < state.blockedUntil {
        windows := windows[key := state];
        return Answer(false, RetryAfterSeconds(state.blockedUntil, now));
      }
      state := state.(eventCount := state.eventCount + 1);
      if state.eventCount <= config.maxRequests {
        windows := windows[key := state];
        return ALLOWED;
      }
      state := state.(blockedUntil := BlockedUntilFor(config, state.windowStartedAt, now));
      windows := windows[key := state];
      return Answer(false, RetryAfterSeconds(state.blockedUntil, now));
    }

    method ConsumeDistributed(shared: RateLimitStore, key: string, now: Time) returns (r: Result<Answer>)
      modifies shared
      ensures r.Err? ==> shared.rows == old(shared.rows)
      ensures r.Ok? ==>
                (shared.rows, r.value) == DistributedStep(config, old(shared.rows), StateKey(namespaceName, key), now)
    {
      r := shared.MutateState(StateKey(namespaceName, key), now, row => Ok(ConsumeRow(config, row, now)));
    }

    /** Asks the store when there is one, and the local windows when there is none or it fails. */
    method Consume(key: string, now: Time) returns (answer: Answer)
      modifies `windows, store
      ensures store == null ==> (windows, answer) == LocalStep(config, old(windows), key, now)
      ensures store != null ==>
                || (windows == old(windows)
                    && (store.rows, answer)
                       == DistributedStep(config, old(store.rows), StateKey(namespaceName, key), now))
                || (store.rows == old(store.rows) && (windows, answer) == LocalStep(config, old(windows), key, now))
    {
      if store != null {
        var r := ConsumeDistributed(store, key, now);
        if r.Ok? {
          return r.value;
        }
      }
      answer := ConsumeLocal(key, now);
    }
  }

  // ----- whole runs -----

  datatype Call = Call(key: string, now: Time)

  datatype LocalRun = LocalRun(windows: Windows, answers: seq<Answer>)

  datatype DistributedRun = DistributedRun(rows: Rows, answers: seq<Answer>)

  function RunLocal(config: Config, calls: seq<Call>): (run: LocalRun)
    ensures |run.answers| == |calls|
  {
    if calls == [] then LocalRun(map[], [])
    else
      var n := |calls| - 1;
      var before := RunLocal(config, calls[..n]);
      var (windows, answer) := LocalStep(config, before.windows, calls[n].key, calls[n].now);
      LocalRun(windows, before.answers + [answer])
  }

  /** A run over a store that may already hold rows of other namespaces. */
  function RunDistributed(config: Config, namespaceName: string, rows: Rows, calls: seq<Call>): (run: DistributedRun)
    ensures |run.answers| == |calls|
  {
    if calls == [] then DistributedRun(rows, [])
    else
      var n := |calls| - 1;
      var before := RunDistributed(config, namespaceName, rows, calls[..n]);
      var (next, answer) := DistributedStep(config, before.rows, StateKey(namespaceName, calls[n].key), calls[n].now);
      DistributedRun(next, before.answers + [answer])
  }

  /** A run leaves the rows of every other namespace, and of every key it has no call for, as they were. */
  lemma {:induction false} OtherRowsUntouched(config: Config, namespaceName: string, rows: Rows, calls: seq<Call>,
                                              key: StateKey)
    requires key.namespaceName != namespaceName || forall k :: 0 <= k < |calls| ==> calls[k].key != key.rateKey
    ensures var after := RunDistributed(config, namespaceName, rows, calls).rows;
            (key in after <==> key in rows) && (key in rows ==> after[key] == rows[key])
  {
    if calls != [] {
      OtherRowsUntouched(config, namespaceName, rows, calls[..|calls| - 1], key);
    }
  }

  /** The rows of one namespace are the local windows. */
  ghost predicate SameState(namespaceName: string, windows: Windows, rows: Rows) {
    && (forall key :: key in windows <==> StateKey(namespaceName, key) in rows)
    && (forall key :: key in windows ==> windows[key] == rows[StateKey(namespaceName, key)])
  }

  lemma StepsAgree(config: Config, namespaceName: string, windows: Windows, rows: Rows, key: string, now: Time)
    requires config.Valid() && SameState(namespaceName, windows, rows)
    ensures var (nextWindows, localAnswer) := LocalStep(config, windows, key, now);
            var (nextRows, sharedAnswer) := DistributedStep(config, rows, StateKey(namespaceName, key), now);
            localAnswer == sharedAnswer && SameState(namespaceName, nextWindows, nextRows)
  {
    assert NormalizedLocal(config, windows, key, now)
        == NormalizeWindowState(RowFor(rows, StateKey(namespaceName, key), now), now, config.window, true);
  }

  /** The local and the distributed limiter give the same answers to every sequence of calls. */
  lemma {:induction false} LocalAndDistributedBisimilar(config: Config, namespaceName: string, rows: Rows, calls: seq<Call>)
    requires config.Valid() && forall key :: StateKey(namespaceName, key) !in rows
    ensures RunLocal(config, calls).answers == RunDistributed(config, namespaceName, rows, calls).answers
    ensures SameState(namespaceName, RunLocal(config, calls).windows,
                      RunDistributed(config, namespaceName, rows, calls).rows)
  {
    if calls != [] {
      var n := |calls| - 1;
      LocalAndDistributedBisimilar(config, namespaceName, rows, calls[..n]);
      StepsAgree(config, namespaceName, RunLocal(config, calls[..n]).windows,
                 RunDistributed(config, namespaceName, rows, calls[..n]).rows, calls[n].key, calls[n].now);
    }
  }

  // ----- safety of runs -----

  /** The clock reads a positive instant and never goes back. */
  ghost predicate ClockedBy(calls: seq<Call>) {
    && (forall i :: 0 <= i < |calls| ==> calls[i].now > 0)
    && (forall i, j :: 0 <= i < j < |calls| ==> calls[i].now <= calls[j].now)
  }

  function LastNow(calls: seq<Call>): Time {
    if calls == [] then 0 else calls[|calls| - 1].now
  }

  /** The shortest time between two window starts of one key. */
  function Gap(config: Config): nat {
    if config.blockDuration > 0 && config.blockDuration < config.window then config.blockDuration else config.window
  }

  /** What holds of every window of a run whose clock last read `last`. */
  ghost predicate SoundWindow(config: Config, state: WindowState, last: Time) {
    && 0 < state.windowStartedAt <= last
    && 1 <= state.eventCount <= config.maxRequests + 1
    && (state.blockedUntil != 0 <==> state.eventCount == config.maxRequests + 1)
    && (state.blockedUntil != 0 ==> state.windowStartedAt + Gap(config) <= state.blockedUntil)
    && (config.blockDuration == 0 && state.blockedUntil != 0 ==>
          state.blockedUntil == state.windowStartedAt + config.window)
  }

  lemma StepKeepsWindows(config: Config, windows: Windows, last: Time, key: string, now: Time)
    requires config.Valid() && 0 < now && last <= now
    requires forall k :: k in windows ==> SoundWindow(config, windows[k], last)
    ensures forall k :: k in LocalStep(config, windows, key, now).0 ==>
              SoundWindow(config, LocalStep(config, windows, key, now).0[k], now)
  {
  }

  /** In every run the count never passes the threshold by more than one, and a block is set just when it does. */
  lemma {:induction false} WindowsStaySound(config: Config, calls: seq<Call>)
    requires config.Valid() && ClockedBy(calls)
    ensures forall k :: k in RunLocal(config, calls).windows ==>
              SoundWindow(config, RunLocal(config, calls).windows[k], LastNow(calls))
  {
    if calls != [] {
      var n := |calls| - 1;
      WindowsStaySound(config, calls[..n]);
      StepKeepsWindows(config, RunLocal(config, calls[..n]).windows, LastNow(calls[..n]), calls[n].key, calls[n].now);
    }
  }

  /** A blocked key is served again exactly from the earlier of its block's end and its window's end. */
  lemma BlockEndsAtEarlierBound(config: Config, windows: Windows, last: Time, key: string, now: Time)
    requires config.Valid() && last <= now && key in windows && SoundWindow(config, windows[key], last)
    requires windows[key].blockedUntil != 0
    ensures LocalStep(config, windows, key, now).1.allowed
       <==> now >= windows[key].blockedUntil || now >= windows[key].windowStartedAt + config.window
  {
  }

  /**
   * Retry-after is honest to within a second: a key refused now is still refused before the announced time, if the
   * block has a second to run and its window does not end first, and is served from one second after it.
   */
  lemma RetryAfterIsHonest(config: Config, windows: Windows, last: Time, key: string, now: Time, later: Time)
    requires config.Valid() && 0 < now && last <= now <= later
    requires forall k :: k in windows ==> SoundWindow(config, windows[k], last)
    requires !LocalStep(config, windows, key, now).1.allowed
    ensures var (next, answer) := LocalStep(config, windows, key, now);
            var again := LocalStep(config, next, key, later).1;
            && (later >= now + (answer.retryAfter + 1) * NANOS_PER_SECOND ==> again.allowed)
            && ((&& later < now + answer.retryAfter * NANOS_PER_SECOND
                 && later < next[key].windowStartedAt + config.window
                 && next[key].blockedUntil >= now + NANOS_PER_SECOND) ==> !again.allowed)
  {
    var (next, answer) := LocalStep(config, windows, key, now);
    StepKeepsWindows(config, windows, last, key, now);
    BlockEndsAtEarlierBound(config, next, now, key, later);
  }

  // ----- how long a block lasts -----

  /** When a block set at `now` ends: after the block duration, or with the window when there is none. */
  ghost predicate BlockEnd(config: Config, start: Time, now: Time, end: Time) {
    if config.blockDuration > 0 then end == now + config.blockDuration else end == start + config.window
  }

  /** Where a call in a full window begun at `start` is refused, and from when the key is served again. */
  lemma ExceedingCallBlocks(config: Config, windows: Windows, key: string, start: Time, now: Time, end: Time, later: Time)
    requires config.Valid() && 0 < start <= now < start + config.window && BlockEnd(config, start, now, end)
    requires key in windows && windows[key] == WindowState(config.maxRequests, start, 0)
    ensures var (next, answer) := LocalStep(config, windows, key, now);
            var (after, again) := LocalStep(config, next, key, later);
            && answer == Answer(false, RetryAfterSeconds(end, now))
            && next[key] == WindowState(config.maxRequests + 1, start, end)
            && (if later >= end || later >= start + config.window
                then again == ALLOWED && after[key] == WindowState(1, later, 0)
                else again == Answer(false, RetryAfterSeconds(end, later)) && after[key] == next[key])
  {
  }

  /** How many of the calls at the places from `first` up to `next` are for `key`. */
  function CallsFor(calls: seq<Call>, key: string, first: nat, next: nat): nat
    requires first <= next <= |calls|
  {
    if first == next then 0
    else CallsFor(calls, key, first, next - 1) + if calls[next - 1].key == key then 1 else 0
  }

  /** The call at `b` finds no window of its key that runs: there is none, it is over, or its block has ended. */
  ghost predicate BeginsWindow(config: Config, calls: seq<Call>, b: nat)
    requires b < |calls|
  {
    var windows, key, now := RunLocal(config, calls[..b]).windows, calls[b].key, calls[b].now;
    key in windows ==>
      || now >= windows[key].windowStartedAt + config.window
      || (windows[key].blockedUntil != 0 && now >= windows[key].blockedUntil)
  }

  /** The state and the answer of the last call of a beginning. */
  lemma StepOfRun(config: Config, calls: seq<Call>, n: nat)
    requires n < |calls|
    ensures var before, after := RunLocal(config, calls[..n]), RunLocal(config, calls[..n + 1]);
            && (after.windows, after.answers[n]) == LocalStep(config, before.windows, calls[n].key, calls[n].now)
            && after.answers[..n] == before.answers
  {
    assert calls[..n + 1][..n] == calls[..n];
  }

  lemma {:induction false} AnswersOfBeginning(config: Config, calls: seq<Call>, m: nat, k: nat)
    requires k < m <= |calls|
    ensures RunLocal(config, calls).answers[k] == RunLocal(config, calls[..m]).answers[k]
  {
    if m == |calls| {
      assert calls[..m] == calls;
    } else {
      var n := |calls| - 1;
      AnswersOfBeginning(config, calls[..n], m, k);
      assert calls[..n][..m] == calls[..m];
    }
  }

  /** A call is answered by the state the calls before it left. */
  lemma AnswerAt(config: Config, calls: seq<Call>, k: nat)
    requires k < |calls|
    ensures RunLocal(config, calls).answers[k]
         == LocalStep(config, RunLocal(config, calls[..k]).windows, calls[k].key, calls[k].now).1
  {
    StepOfRun(config, calls, k);
    AnswersOfBeginning(config, calls, k + 1, k);
  }

  /** A call in a window with room is counted and served. */
  lemma ServedStep(config: Config, windows: Windows, key: string, start: Time, now: Time, count: nat)
    requires config.Valid() && 0 < start <= now < start + config.window && count < config.maxRequests
    requires key in windows && windows[key] == WindowState(count, start, 0)
    ensures LocalStep(config, windows, key, now) == (windows[key := WindowState(count + 1, start, 0)], ALLOWED)
  {
  }

  /** A call that finds no running window begins one and is served. */
  lemma BeginningIsServed(config: Config, calls: seq<Call>, b: nat)
    requires config.Valid() && b < |calls| && calls[b].now > 0 && BeginsWindow(config, calls, b)
    ensures var windows := RunLocal(config, calls[..b]).windows;
            LocalStep(config, windows, calls[b].key, calls[b].now)
            == (windows[calls[b].key := WindowState(1, calls[b].now, 0)], ALLOWED)
  {
  }

  /** The calls for a key from the one that begins its window are counted while there is room. */
  lemma {:induction false} WindowFills(config: Config, calls: seq<Call>, b: nat, i: nat)
    requires config.Valid() && ClockedBy(calls) && b < i <= |calls| && BeginsWindow(config, calls, b)
    requires calls[i - 1].now < calls[b].now + config.window
    requires CallsFor(calls, calls[b].key, b, i) <= config.maxRequests
    ensures var windows, key := RunLocal(config, calls[..i]).windows, calls[b].key;
            key in windows && windows[key] == WindowState(CallsFor(calls, key, b, i), calls[b].now, 0)
    decreases i
  {
    var before, key := RunLocal(config, calls[..i - 1]).windows, calls[b].key;
    StepOfRun(config, calls, i - 1);
    if b == i - 1 {
      BeginningIsServed(config, calls, b);
      assert CallsFor(calls, key, b, b) == 0;
    } else {
      WindowFills(config, calls, b, i - 1);
      if calls[i - 1].key == key {
        ServedStep(config, before, key, calls[b].now, calls[i - 1].now, CallsFor(calls, key, b, i - 1));
      }
    }
  }

  lemma {:induction false} CallIsCounted(calls: seq<Call>, key: string, first: nat, k: nat, next: nat)
    requires first <= k < next <= |calls| && calls[k].key == key
    ensures CallsFor(calls, key, first, k) < CallsFor(calls, key, first, next)
    decreases next
  {
    if k < next - 1 {
      CallIsCounted(calls, key, first, k, next - 1);
    }
  }

  /** The calls counted in a window with room are served. */
  lemma {:induction false} CountedAreServed(config: Config, calls: seq<Call>, b: nat, k: nat, i: nat)
    requires config.Valid() && ClockedBy(calls) && b <= k < i <= |calls| && BeginsWindow(config, calls, b)
    requires calls[i - 1].now < calls[b].now + config.window && calls[k].key == calls[b].key
    requires CallsFor(calls, calls[b].key, b, i) <= config.maxRequests
    ensures RunLocal(config, calls).answers[k] == ALLOWED
  {
    AnswerAt(config, calls, k);
    CallIsCounted(calls, calls[b].key, b, k, i);
    if k == b {
      BeginningIsServed(config, calls, b);
    } else {
      WindowFills(config, calls, b, k);
      ServedStep(config, RunLocal(config, calls[..k]).windows, calls[b].key, calls[b].now, calls[k].now,
                 CallsFor(calls, calls[b].key, b, k));
    }
  }

  /** While the block and the window last, nothing changes for the key. */
  lemma {:induction false} BlockLasts(config: Config, calls: seq<Call>, key: string, i: nat, j: nat, state: WindowState)
    requires config.Valid() && ClockedBy(calls) && i <= j <= |calls|
    requires key in RunLocal(config, calls[..i]).windows && RunLocal(config, calls[..i]).windows[key] == state
    requires state.windowStartedAt > 0 && state.blockedUntil != 0
    requires forall k :: i <= k < j && calls[k].key == key ==>
               calls[k].now < state.blockedUntil && calls[k].now < state.windowStartedAt + config.window
    ensures key in RunLocal(config, calls[..j]).windows && RunLocal(config, calls[..j]).windows[key] == state
    decreases j
  {
    if i < j {
      BlockLasts(config, calls, key, i, j - 1, state);
      StepOfRun(config, calls, j - 1);
    }
  }

  /** The call at `i` is one too many for the window the call at `b` begins. */
  ghost predicate Exceeds(config: Config, calls: seq<Call>, b: nat, i: nat) {
    && b < i < |calls| && calls[i].key == calls[b].key && BeginsWindow(config, calls, b)
    && calls[i].now < calls[b].now + config.window
    && CallsFor(calls, calls[b].key, b, i) == config.maxRequests
  }

  lemma {:induction false} ExceedingState(config: Config, calls: seq<Call>, b: nat, i: nat, end: Time)
    requires config.Valid() && ClockedBy(calls) && Exceeds(config, calls, b, i)
    requires BlockEnd(config, calls[b].now, calls[i].now, end)
    ensures var windows, key := RunLocal(config, calls[..i + 1]).windows, calls[b].key;
            && key in windows && windows[key] == WindowState(config.maxRequests + 1, calls[b].now, end)
            && RunLocal(config, calls).answers[i] == Answer(false, RetryAfterSeconds(end, calls[i].now))
  {
    WindowFills(config, calls, b, i);
    StepOfRun(config, calls, i);
    AnswerAt(config, calls, i);
    ExceedingCallBlocks(config, RunLocal(config, calls[..i]).windows, calls[b].key, calls[b].now, calls[i].now, end,
                        calls[i].now);
  }

  /**
   * Over any run: the calls for a key are served from the one that begins its window up to the threshold, and the next
   * one in the window is refused. From then on the key is refused until the block that this call sets ends or the
   * window does, and its first call after that is served and begins a window.
   */
  lemma {:induction false} BlockFollowsExceedingCall(config: Config, calls: seq<Call>, b: nat, i: nat, j: nat, end: Time)
    requires config.Valid() && ClockedBy(calls) && Exceeds(config, calls, b, i)
    requires BlockEnd(config, calls[b].now, calls[i].now, end)
    requires i < j < |calls| && calls[j].key == calls[b].key
    requires forall k :: i < k < j && calls[k].key == calls[b].key ==>
               calls[k].now < end && calls[k].now < calls[b].now + config.window
    ensures var answers := RunLocal(config, calls).answers;
            && (forall k :: b <= k < i && calls[k].key == calls[b].key ==> answers[k] == ALLOWED)
            && answers[i] == Answer(false, RetryAfterSeconds(end, calls[i].now))
            && (if calls[j].now >= end || calls[j].now >= calls[b].now + config.window
                then answers[j] == ALLOWED && BeginsWindow(config, calls, j)
                else answers[j] == Answer(false, RetryAfterSeconds(end, calls[j].now)))
  {
    forall k | b <= k < i && calls[k].key == calls[b].key
      ensures RunLocal(config, calls).answers[k] == ALLOWED
    {
      CountedAreServed(config, calls, b, k, i);
    }
    ExceedingState(config, calls, b, i, end);
    var state := WindowState(config.maxRequests + 1, calls[b].now, end);
    BlockLasts(config, calls, calls[b].key, i + 1, j, state);
    AnswerAt(config, calls, j);
  }

  /** The first call for a key begins a window. */
  lemma {:induction false} FirstCallBegins(config: Config, calls: seq<Call>, b: nat)
    requires b < |calls| && forall k :: 0 <= k < b ==> calls[k].key != calls[b].key
    ensures BeginsWindow(config, calls, b)
  {
    KeysOfRun(config, calls[..b]);
  }

  lemma {:induction false} KeysOfRun(config: Config, calls: seq<Call>)
    ensures forall key :: key in RunLocal(config, calls).windows <==> exists k :: 0 <= k < |calls| && calls[k].key == key
  {
    if calls != [] {
      var n := |calls| - 1;
      KeysOfRun(config, calls[..n]);
      forall key
        ensures key in RunLocal(config, calls).windows <==> exists k :: 0 <= k < |calls| && calls[k].key == key
      {
        if key in RunLocal(config, calls[..n]).windows {
          var k :| 0 <= k < n && calls[..n][k].key == key;
          assert calls[k].key == key;
        }
        if k :| 0 <= k < n && calls[k].key == key {
          assert calls[..n][k].key == key;
        }
      }
    }
  }

  /** How many of the calls for `key` in [from, until) were allowed. */
  function CountAllowed(calls: seq<Call>, answers: seq<Answer>, key: string, from: int, until: int): nat
    requires |calls| == |answers|
  {
    if calls == [] then 0
    else
      var n := |calls| - 1;
      CountAllowed(calls[..n], answers[..n], key, from, until)
      + if calls[n].key == key && from <= calls[n].now < until && answers[n].allowed then 1 else 0
  }

  /**
   * What an interval from `from` has used up, when the window of the key is the `begun`-th to begin in it, or, with
   * `begun` 0, began before it: windows begin a gap apart, and only the first began with a call outside.
   */
  ghost predicate UsedUp(config: Config, state: WindowState, from: int, begun: nat, allowed: nat) {
    var used := if state.eventCount < config.maxRequests then state.eventCount else config.maxRequests;
    if begun == 0 then state.windowStartedAt < from && allowed <= used - 1
    else
      && state.windowStartedAt >= from + (begun - 1) * Gap(config)
      && allowed <= config.maxRequests - 1 + (begun - 1) * config.maxRequests + used
  }

  ghost predicate WithinAllowance(config: Config, windows: Windows, key: string, from: int, gaps: nat, begun: nat,
                                  allowed: nat, last: Time)
  {
    && allowed <= (gaps + 1) * config.maxRequests - 1
    && (last < from ==> allowed == 0)
    && if key in windows then UsedUp(config, windows[key], from, begun, allowed) else allowed == 0
  }

  lemma ProductOrder(a: nat, b: nat, c: nat)
    requires a <= b
    ensures a * c <= b * c
  {
  }

  lemma FewerGaps(a: nat, b: nat, gap: nat)
    requires a * gap < b * gap
    ensures a < b
  {
    if b <= a {
      ProductOrder(b, a, gap);
    }
  }

  /** A call in the interval comes before its last gap is over, so no more windows than gaps have begun. */
  lemma OpenedWithinGaps(config: Config, state: WindowState, from: int, begun: nat, allowed: nat, gaps: nat, now: Time)
    requires config.Valid() && UsedUp(config, state, from, begun, allowed)
    requires state.windowStartedAt <= now < from + gaps * Gap(config)
    ensures allowed <= (gaps + 1) * config.maxRequests - 1
  {
    if begun > 0 {
      FewerGaps(begun - 1, gaps, Gap(config));
    }
    ProductOrder(begun, gaps, config.maxRequests);
  }

  /** The window after a call of the key, in the same window or in a new one, and how many have begun by then. */
  lemma CallUsesUp(config: Config, windows: Windows, last: Time, key: string, now: Time, from: int, until: int,
                   begun: nat, allowed: nat) returns (next: nat)
    requires config.Valid() && 0 < now && last <= now
    requires key in windows ==> SoundWindow(config, windows[key], last)
    requires last < from ==> allowed == 0
    requires if key in windows then UsedUp(config, windows[key], from, begun, allowed) else allowed == 0
    ensures var (after, answer) := LocalStep(config, windows, key, now);
            var more := if from <= now < until && answer.allowed then 1 else 0;
            UsedUp(config, after[key], from, next, allowed + more)
  {
    var state := LocalStep(config, windows, key, now).0[key];
    if key !in windows {
      next := if now < from then 0 else 1;
    } else if state.windowStartedAt == windows[key].windowStartedAt {
      next := begun;
    } else {
      next := if now < from then 0 else begun + 1;
      assert now >= windows[key].windowStartedAt + Gap(config);
      if begun > 0 {
        assert begun * Gap(config) == (begun - 1) * Gap(config) + Gap(config);
        assert begun * config.maxRequests == (begun - 1) * config.maxRequests + config.maxRequests;
      }
    }
  }

  lemma StepKeepsAllowance(config: Config, windows: Windows, last: Time, call: Call, key: string, from: int, until: int,
                           gaps: nat, begun: nat, allowed: nat) returns (next: nat)
    requires config.Valid() && 0 < call.now && last <= call.now && until <= from + gaps * Gap(config)
    requires forall k :: k in windows ==> SoundWindow(config, windows[k], last)
    requires WithinAllowance(config, windows, key, from, gaps, begun, allowed, last)
    ensures var (after, answer) := LocalStep(config, windows, call.key, call.now);
            var more := if call.key == key && from <= call.now < until && answer.allowed then 1 else 0;
            WithinAllowance(config, after, key, from, gaps, next, allowed + more, call.now)
  {
    next := begun;
    if call.key == key {
      next := CallUsesUp(config, windows, last, key, call.now, from, until, begun, allowed);
      StepKeepsWindows(config, windows, last, key, call.now);
      var (after, answer) := LocalStep(config, windows, key, call.now);
      if from <= call.now < until && answer.allowed {
        OpenedWithinGaps(config, after[key], from, next, allowed + 1, gaps, call.now);
      }
    }
  }

  lemma {:induction false} AllowanceHolds(config: Config, calls: seq<Call>, key: string, from: int, until: int,
                                          gaps: nat)
    returns (begun: nat)
    requires config.Valid() && ClockedBy(calls) && until <= from + gaps * Gap(config)
    ensures var run := RunLocal(config, calls);
            WithinAllowance(config, run.windows, key, from, gaps, begun,
                            CountAllowed(calls, run.answers, key, from, until), LastNow(calls))
  {
    if calls == [] {
      begun := 0;
      ProductOrder(0, gaps, config.maxRequests);
    } else {
      var n := |calls| - 1;
      var before := RunLocal(config, calls[..n]);
      var earlier := AllowanceHolds(config, calls[..n], key, from, until, gaps);
      WindowsStaySound(config, calls[..n]);
      begun := StepKeepsAllowance(config, before.windows, LastNow(calls[..n]), calls[n], key, from, until, gaps,
                                  earlier, CountAllowed(calls[..n], before.answers, key, from, until));
      assert RunLocal(config, calls).answers[..n] == before.answers;
    }
  }

  /** Over any run, in an interval of no more than `gaps` gaps no key is served `gaps + 1` times the threshold. */
  lemma ThroughputBound(config: Config, calls: seq<Call>, key: string, from: int, until: int, gaps: nat)
    requires config.Valid() && ClockedBy(calls) && until <= from + gaps * Gap(config)
    ensures CountAllowed(calls, RunLocal(config, calls).answers, key, from, until)
         <= (gaps + 1) * config.maxRequests - 1
  {
    var begun := AllowanceHolds(config, calls, key, from, until, gaps);
  }

  /** The distributed limiter obeys the same bound. */
  lemma SharedThroughputBound(config: Config, namespaceName: string, rows: Rows, calls: seq<Call>, key: string,
                              from: int, until: int, gaps: nat)
    requires config.Valid() && ClockedBy(calls) && until <= from + gaps * Gap(config)
    requires forall k :: StateKey(namespaceName, k) !in rows
    ensures CountAllowed(calls, RunDistributed(config, namespaceName, rows, calls).answers, key, from, until)
         <= (gaps + 1) * config.maxRequests - 1
  {
    LocalAndDistributedBisimilar(config, namespaceName, rows, calls);
    ThroughputBound(config, calls, key, from, until, gaps);
  }

  // ----- the bound is reached -----

  /** `n` calls at one instant. */
  function Burst(calls: seq<Call>, key: string, now: Time, n: nat): seq<Call> {
    if n == 0 then calls else Burst(calls, key, now, n - 1) + [Call(key, now)]
  }

  /** What a call at `now` would find. */
  ghost predicate Finds(config: Config, calls: seq<Call>, key: string, now: Time, state: WindowState) {
    NormalizedLocal(config, RunLocal(config, calls).windows, key, now) == state
  }

  ghost function Served(config: Config, calls: seq<Call>, key: string, from: int, until: int): nat {
    CountAllowed(calls, RunLocal(config, calls).answers, key, from, until)
  }

  lemma OneMoreCall(config: Config, calls: seq<Call>, key: string, now: Time, state: WindowState, from: int, until: int)
    requires config.Valid() && Finds(config, calls, key, now, state)
    ensures var more := calls + [Call(key, now)];
            var (next, answer) := ConsumeWindow(config, state, now);
            && RunLocal(config, more).windows == RunLocal(config, calls).windows[key := next]
            && Served(config, more, key, from, until)
               == Served(config, calls, key, from, until) + (if from <= now < until && answer.allowed then 1 else 0)
  {
    var more := calls + [Call(key, now)];
    assert more[..|calls|] == calls;
    assert RunLocal(config, more).answers[..|calls|] == RunLocal(config, calls).answers;
  }

  ghost predicate Holds(config: Config, calls: seq<Call>, key: string, state: WindowState) {
    key in RunLocal(config, calls).windows && RunLocal(config, calls).windows[key] == state
  }

  lemma CallIsServed(config: Config, calls: seq<Call>, key: string, now: Time, count: nat, start: Time, from: int,
                     until: int)
    requires config.Valid() && 0 < start <= now < start + config.window && count < config.maxRequests
    requires Finds(config, calls, key, now, WindowState(count, start, 0))
    ensures var more, next := calls + [Call(key, now)], WindowState(count + 1, start, 0);
            && Finds(config, more, key, now, next) && Holds(config, more, key, next)
            && Served(config, more, key, from, until)
               == Served(config, calls, key, from, until) + if from <= now < until then 1 else 0
  {
    OneMoreCall(config, calls, key, now, WindowState(count, start, 0), from, until);
  }

  /** Calls at one instant are served while there is room in the window. */
  lemma {:induction false} BurstIsServed(config: Config, calls: seq<Call>, key: string, now: Time, count: nat,
                                         start: Time, n: nat, from: int, until: int)
    requires config.Valid() && 0 < start <= now < start + config.window && count + n <= config.maxRequests
    requires Finds(config, calls, key, now, WindowState(count, start, 0))
    ensures Finds(config, Burst(calls, key, now, n), key, now, WindowState(count + n, start, 0))
    ensures n > 0 ==> Holds(config, Burst(calls, key, now, n), key, WindowState(count + n, start, 0))
    ensures Served(config, Burst(calls, key, now, n), key, from, until)
         == Served(config, calls, key, from, until) + if from <= now < until then n else 0
  {
    if n > 0 {
      BurstIsServed(config, calls, key, now, count, start, n - 1, from, until);
      CallIsServed(config, Burst(calls, key, now, n - 1), key, now, count + n - 1, start, from, until);
    }
  }

  /** A full window and one refused call at its start. */
  function Round(config: Config, calls: seq<Call>, key: string, start: Time): seq<Call> {
    Burst(calls, key, start, config.maxRequests) + [Call(key, start)]
  }

  /** A round serves a full window, and a gap later a new window begins. */
  lemma RoundIsServed(config: Config, calls: seq<Call>, key: string, start: Time, from: int, until: int)
    requires config.Valid() && 0 < start && Finds(config, calls, key, start, WindowState(0, start, 0))
    ensures var round, next := Round(config, calls, key, start), start + Gap(config);
            && Finds(config, round, key, next, WindowState(0, next, 0))
            && Served(config, round, key, from, until)
               == Served(config, calls, key, from, until) + (if from <= start < until then config.maxRequests else 0)
  {
    var full := Burst(calls, key, start, config.maxRequests);
    BurstIsServed(config, calls, key, start, 0, start, config.maxRequests, from, until);
    OneMoreCall(config, full, key, start, WindowState(config.maxRequests, start, 0), from, until);
  }

  /** Where the `n`-th window after the first begins. */
  function RoundStart(config: Config, start: Time, n: nat): (time: Time)
    ensures time >= start + config.window
  {
    if n == 0 then start + config.window else RoundStart(config, start, n - 1) + Gap(config)
  }

  /** What `n` windows and the rest of the first one serve. */
  ghost function Quota(config: Config, n: nat): nat
    requires config.Valid()
  {
    if n == 0 then config.maxRequests - 1 else Quota(config, n - 1) + config.maxRequests
  }

  lemma {:induction false} RoundsInProducts(config: Config, start: Time, n: nat)
    requires config.Valid()
    ensures RoundStart(config, start, n) == start + config.window + n * Gap(config)
    ensures Quota(config, n) == (n + 1) * config.maxRequests - 1
  {
    if n > 0 {
      RoundsInProducts(config, start, n - 1);
      NextProduct(n, Gap(config));
      NextProduct(n + 1, config.maxRequests);
    }
  }

  lemma NextProduct(n: nat, c: nat)
    requires n > 0
    ensures n * c == (n - 1) * c + c
  {
  }

  /** A first call at `start`, the rest of its window in the window's last instant, and a round for every gap. */
  function BusyCalls(config: Config, key: string, start: Time, gaps: nat): seq<Call>
    requires config.Valid()
  {
    if gaps == 0 then Burst([Call(key, start)], key, start + config.window - 1, config.maxRequests - 1)
    else Round(config, BusyCalls(config, key, start, gaps - 1), key, RoundStart(config, start, gaps - 1))
  }

  lemma {:induction false} BurstIsClocked(calls: seq<Call>, key: string, now: Time, n: nat)
    requires ClockedBy(calls) && LastNow(calls) <= now && 0 < now
    ensures ClockedBy(Burst(calls, key, now, n)) && LastNow(Burst(calls, key, now, n)) <= now
  {
    if n > 0 {
      BurstIsClocked(calls, key, now, n - 1);
    }
  }

  lemma RoundIsClocked(config: Config, calls: seq<Call>, key: string, start: Time)
    requires ClockedBy(calls) && LastNow(calls) <= start && 0 < start
    ensures ClockedBy(Round(config, calls, key, start)) && LastNow(Round(config, calls, key, start)) == start
  {
    BurstIsClocked(calls, key, start, config.maxRequests);
  }

  lemma {:induction false} BusyIsClocked(config: Config, key: string, start: Time, gaps: nat)
    requires config.Valid() && 0 < start
    ensures ClockedBy(BusyCalls(config, key, start, gaps))
    ensures LastNow(BusyCalls(config, key, start, gaps)) <= RoundStart(config, start, gaps)
  {
    if gaps == 0 {
      BurstIsClocked([Call(key, start)], key, start + config.window - 1, config.maxRequests - 1);
    } else {
      BusyIsClocked(config, key, start, gaps - 1);
      RoundIsClocked(config, BusyCalls(config, key, start, gaps - 1), key, RoundStart(config, start, gaps - 1));
    }
  }

  /** The first window: all but its first call in its last instant, and then a new window. */
  lemma {:induction false} FirstWindow(config: Config, key: string, start: Time, until: int)
    requires config.Valid() && 0 < start && start + config.window - 1 < until && config.window >= 2
    ensures var calls, next := BusyCalls(config, key, start, 0), start + config.window;
            && Finds(config, calls, key, next, WindowState(0, next, 0))
            && Served(config, calls, key, start + config.window - 1, until) == config.maxRequests - 1
  {
    var last, first := start + config.window - 1, [Call(key, start)];
    assert Finds(config, [], key, start, WindowState(0, start, 0));
    assert [] + first == first;
    CallIsServed(config, [], key, start, 0, start, last, until);
    LaterInWindow(config, first, key, start, last, 1);
    BurstIsServed(config, first, key, last, 1, start, config.maxRequests - 1, last, until);
    WindowEnds(config, BusyCalls(config, key, start, 0), key, start, config.maxRequests);
  }

  /** A window without a block is found again until it ends. */
  lemma LaterInWindow(config: Config, calls: seq<Call>, key: string, start: Time, now: Time, count: nat)
    requires config.Valid() && 0 < start <= now < start + config.window
    requires Holds(config, calls, key, WindowState(count, start, 0))
    ensures Finds(config, calls, key, now, WindowState(count, start, 0))
  {
  }

  lemma WindowEnds(config: Config, calls: seq<Call>, key: string, start: Time, count: nat)
    requires config.Valid() && 0 < start && Holds(config, calls, key, WindowState(count, start, 0))
    ensures var next := start + config.window; Finds(config, calls, key, next, WindowState(0, next, 0))
  {
  }

  lemma {:induction false} BusyIsServed(config: Config, key: string, start: Time, gaps: nat, until: int)
    requires config.Valid() && Gap(config) >= 2 && 0 < start
    requires RoundStart(config, start, gaps) - 1 <= until && start + config.window - 1 < until
    ensures var calls, next := BusyCalls(config, key, start, gaps), RoundStart(config, start, gaps);
            && Finds(config, calls, key, next, WindowState(0, next, 0))
            && Served(config, calls, key, start + config.window - 1, until) == Quota(config, gaps)
  {
    if gaps == 0 {
      FirstWindow(config, key, start, until);
    } else {
      var round := RoundStart(config, start, gaps - 1);
      BusyIsServed(config, key, start, gaps - 1, until);
      RoundIsServed(config, BusyCalls(config, key, start, gaps - 1), key, round, start + config.window - 1, until);
    }
  }

  lemma {:induction false} BusyReachesQuota(config: Config, key: string, start: Time, gaps: nat, until: int)
    requires config.Valid() && Gap(config) >= 2 && 0 < start
    requires until == RoundStart(config, start, gaps) - 1 && start + config.window - 1 < until
    ensures var calls := BusyCalls(config, key, start, gaps);
            && ClockedBy(calls)
            && CountAllowed(calls, RunLocal(config, calls).answers, key, start + config.window - 1, until)
               == Quota(config, gaps)
  {
    BusyIsClocked(config, key, start, gaps);
    BusyIsServed(config, key, start, gaps, until);
  }

  /**
   * For every configuration whose gap is at least two instants and every number of gaps, a run serves as many as the
   * bound allows: the bound cannot be lowered.
   */
  lemma {:induction false} ThroughputBoundIsReached(config: Config, key: string, start: Time, gaps: nat)
    requires config.Valid() && Gap(config) >= 2 && 0 < start && gaps > 0
    ensures var calls, from := BusyCalls(config, key, start, gaps), start + config.window - 1;
            && ClockedBy(calls)
            && CountAllowed(calls, RunLocal(config, calls).answers, key, from, from + gaps * Gap(config))
               == (gaps + 1) * config.maxRequests - 1
  {
    RoundsInProducts(config, start, gaps);
    ProductOrder(1, gaps, Gap(config));
    BusyReachesQuota(config, key, start, gaps, start + config.window - 1 + gaps * Gap(config));
  }
}
