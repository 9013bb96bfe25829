/** The login attempt guard: failures in a sliding window lock a key for a while. */
module LoginGuard {
  import opened Results
  import opened Text
  import opened Times
  import opened RateLimiting

  datatype Config = Config(maxAttempts: nat, window: nat, lockout: nat) {
    ghost predicate Valid() { maxAttempts >= 1 && window >= 1 && lockout >= 1 }
  }

  function MakeConfig(maxAttempts: int, windowSeconds: int, lockoutSeconds: int): (config: Config)
    ensures config.Valid()
    ensures config.maxAttempts == (if maxAttempts > 1 then maxAttempts else 1)
    ensures config.window == (if windowSeconds > 1 then windowSeconds else 1) * 1_000_000_000
    ensures config.lockout == (if lockoutSeconds > 1 then lockoutSeconds else 1) * 1_000_000_000
  {
    Config(AtLeast(maxAttempts, 1), AtLeast(windowSeconds, 1) * NANOS_PER_SECOND,
           AtLeast(lockoutSeconds, 1) * NANOS_PER_SECOND)
  }

  datatype LoginState = LoginState(failures: seq<Time>, lockoutUntil: Time)

  const NO_STATE := LoginState([], 0)

  type States = map<string, LoginState>

  /** The failures not before the cutoff, in order. */
  function Active(failures: seq<Time>, cutoff: int): seq<Time> {
    if failures == [] then []
    else
      var n := |failures| - 1;
      var before := Active(failures[..n], cutoff);
      if failures[n] < cutoff then before else before + [failures[n]]
  }

  method ActiveFailures(failures: seq<Time>, now: Time, window: nat) returns (active: seq<Time>)
    ensures active == Active(failures, now - window)
  {
    var cutoff := now - window;
    active := [];
    for i := 0 to |failures|
      invariant active == Active(failures[..i], cutoff)
    {
      assert failures[..i + 1][..i] == failures[..i];
      if failures[i] < cutoff {
        continue;
      }
      active := active + [failures[i]];
    }
    assert failures[..|failures|] == failures;
  }

  function StateOf(states: States, key: string): LoginState {
    if key in states then states[key] else NO_STATE
  }

  // ----- the guard's own steps -----

  function CheckStep(config: Config, states: States, key: string, now: Time): (States, Answer) {
    var state := StateOf(states, key);
    var active := Active(state.failures, now - config.window);
    if state.lockoutUntil != 0 && now < state.lockoutUntil then
      (states[key := LoginState(active, state.lockoutUntil)],
       Answer(false, RetryAfterSeconds(state.lockoutUntil, now)))
    else if active == [] then (states - {key}, ALLOWED)
    else (states[key := LoginState(active, 0)], ALLOWED)
  }

  function FailureStep(config: Config, states: States, key: string, now: Time): States {
    var state := StateOf(states, key);
    var failures := Active(state.failures, now - config.window) + [now];
    states[key := LoginState(failures, if |failures| >= config.maxAttempts then now + config.lockout
                                       else state.lockoutUntil)]
  }

  // ----- the steps on a shared row -----

  /** A check normalises the row; the count outlives the end of a block. */
  function CheckRow(config: Config, row: WindowState, now: Time): Mutation<Answer> {
    var normalized := NormalizeWindowState(row, now, config.window, false);
    Mutation(normalized, normalized != row,
             if normalized.blockedUntil != 0 && now < normalized.blockedUntil
             then Answer(false, RetryAfterSeconds(normalized.blockedUntil, now)) else ALLOWED)
  }

  function FailureRow(config: Config, row: WindowState, now: Time): Mutation<()> {
    var normalized := NormalizeWindowState(row, now, config.window, false);
    var count := normalized.eventCount + 1;
    Mutation(WindowState(count, normalized.windowStartedAt,
                         if count >= config.maxAttempts then now + config.lockout else normalized.blockedUntil),
             true, ())
  }

  function SharedCheckStep(config: Config, rows: Rows, key: StateKey, now: Time): (Rows, Answer) {
    var row := RowFor(rows, key, now);
    var mutation := CheckRow(config, row, now);
    (rows[key := if mutation.persist then mutation.next else row], mutation.answer)
  }

  function SharedFailureStep(config: Config, rows: Rows, key: StateKey, now: Time): Rows {
    rows[key := FailureRow(config, RowFor(rows, key, now), now).next]
  }

  // ----- the guard -----

  class LoginAttemptGuard {
    const config: Config
    const namespaceName: string
    var store: RateLimitStore?
    var states: States

    constructor (maxAttempts: int, windowSeconds: int, lockoutSeconds: int, namespaceName: string,
                 store: RateLimitStore?)
      ensures config == MakeConfig(maxAttempts, windowSeconds, lockoutSeconds) && states == map[]
      ensures this.namespaceName == namespaceName && this.store == store
    {
      config := MakeConfig(maxAttempts, windowSeconds, lockoutSeconds);
      this.namespaceName, this.store, states := namespaceName, store, map[];
    }

    method CheckLocal(key: string, now: Time) returns (answer: Answer)
      modifies `states
      ensures (states, answer) == CheckStep(config, old(states), key, now)
    {
      var state := StateOf(states, key);
      var active := ActiveFailures(state.failures, now, config.window);
      state := state.(failures := active);
      if state.lockoutUntil != 0 {
        if now < state.lockoutUntil {
          states := states[key := state];
          return Answer(false, RetryAfterSeconds(state.lockoutUntil, now));
        }
        state := state.(lockoutUntil := 0);
      }
      if |state.failures| == 0 {
        states := states - {key};
        return ALLOWED;
      }
      states := states[key := state];
      return ALLOWED;
    }

    method CheckDistributed(shared: RateLimitStore, key: string, now: Time) returns (r: Result<Answer>)
      modifies shared
      ensures r.Err? ==> shared.rows == old(shared.rows)
      ensures r.Ok? ==>
                (shared.rows, r.value) == SharedCheckStep(config, old(shared.rows), StateKey(namespaceName, key), now)
    {
      r := shared.MutateState(StateKey(namespaceName, key), now, row => Ok(CheckRow(config, row, now)));
    }

    /** Asks the store when there is one, and the local state when there is none or it fails. */
    method Check(rawKey: string, now: Time) returns (answer: Answer)
      modifies `states, store
      ensures store == null ==> (states, answer) == CheckStep(config, old(states), TrimSpace(rawKey), now)
      ensures store != null ==>
                || (states == old(states)
                    && (store.rows, answer) == SharedCheckStep(config, old(store.rows),
                                                               StateKey(namespaceName, TrimSpace(rawKey)), now))
                || (store.rows == old(store.rows)
                    && (states, answer) == CheckStep(config, old(states), TrimSpace(rawKey), now))
    {
      if store != null {
        var r := CheckDistributed(store, TrimSpace(rawKey), now);
        if r.Ok? {
          return r.value;
        }
      }
      answer := CheckLocal(TrimSpace(rawKey), now);
    }

    method RegisterFailureLocal(key: string, now: Time)
      modifies `states
      ensures states == FailureStep(config, old(states), key, now)
    {
      var state := StateOf(states, key);
      var active := ActiveFailures(state.failures, now, config.window);
      state := state.(failures := active + [now]);
      if |state.failures| >= config.maxAttempts {
        state := state.(lockoutUntil := now + config.lockout);
      }
      states := states[key := state];
    }

    method RegisterFailureDistributed(shared: RateLimitStore, key: string, now: Time) returns (r: Result<()>)
      modifies shared
      ensures shared.rows == if r.Ok? then SharedFailureStep(config, old(shared.rows), StateKey(namespaceName, key), now)
                             else old(shared.rows)
    {
      r := shared.MutateState(StateKey(namespaceName, key), now, row => Ok(FailureRow(config, row, now)));
    }

    method RegisterFailure(rawKey: string, now: Time)
      modifies `states, store
      ensures store == null ==> states == FailureStep(config, old(states), TrimSpace(rawKey), now)
      ensures store != null ==>
                || (states == old(states)
                    && store.rows == SharedFailureStep(config, old(store.rows),
                                                       StateKey(namespaceName, TrimSpace(rawKey)), now))
                || (store.rows == old(store.rows)
                    && states == FailureStep(config, old(states), TrimSpace(rawKey), now))
    {
      if store != null {
        var r := RegisterFailureDistributed(store, TrimSpace(rawKey), now);
        if r.Ok? {
          return;
        }
      }
      RegisterFailureLocal(TrimSpace(rawKey), now);
    }

    /** Forgets the key locally and, unless the store fails, in the store. */
    method RegisterSuccess(rawKey: string)
      modifies `states, store
      ensures states == old(states) - {TrimSpace(rawKey)}
      ensures store != null ==>
                store.rows == old(store.rows)
                || store.rows == old(store.rows) - {StateKey(namespaceName, TrimSpace(rawKey))}
    {
      states := states - {TrimSpace(rawKey)};
      if store != null {
        var _ := store.DeleteState(StateKey(namespaceName, TrimSpace(rawKey)));
      }
    }

    /** Forgets every key locally and, unless the store fails, clears the namespace. */
    method Reset()
      modifies `states, store
      ensures states == map[]
      ensures store != null ==>
                store.rows == old(store.rows) || store.rows == WithoutNamespace(old(store.rows), namespaceName)
    {
      states := map[];
      if store != null {
        var _ := store.ClearNamespace(namespaceName);
      }
    }
  }

  // ----- whole runs -----

  datatype Event =
    | Check(key: string, now: Time)
    | Failure(key: string, now: Time)
    | Success(key: string)
    | Reset

  datatype GuardRun = GuardRun(states: States, answers: seq<Answer>)

  /** The guard after a sequence of calls, with the answers it gave to the checks among them. */
  function Run(config: Config, events: seq<Event>): GuardRun {
    if events == [] then GuardRun(map[], [])
    else
      var n := |events| - 1;
      var before := Run(config, events[..n]);
      match events[n]
      case Check(key, now) =>
        var (states, answer) := CheckStep(config, before.states, TrimSpace(key), now);
        GuardRun(states, before.answers + [answer])
      case Failure(key, now) => before.(states := FailureStep(config, before.states, TrimSpace(key), now))
      case Success(key) => before.(states := before.states - {TrimSpace(key)})
      case Reset => before.(states := map[])
  }

  // ----- a guard that forgets nothing -----

  /** Every failure of a key since its last success or the last reset. */
  ghost function History(events: seq<Event>, key: string): seq<Time> {
    if events == [] then []
    else
      var n := |events| - 1;
      match events[n]
      case Check(_, _) => History(events[..n], key)
      case Failure(k, now) => if TrimSpace(k) == key then History(events[..n], key) + [now] else History(events[..n], key)
      case Success(k) => if TrimSpace(k) == key then [] else History(events[..n], key)
      case Reset => []
  }

  ghost function CountBetween(failures: seq<Time>, low: int, high: int): nat {
    if failures == [] then 0
    else
      var n := |failures| - 1;
      CountBetween(failures[..n], low, high) + if low <= failures[n] <= high then 1 else 0
  }

  /** At `t` the key had at least the allowed number of failures within one window. */
  ghost predicate Trigger(config: Config, history: seq<Time>, t: Time) {
    t in history && CountBetween(history, t - config.window, t) >= config.maxAttempts
  }

  ghost predicate Refused(config: Config, history: seq<Time>, now: Time) {
    exists t: Time :: Trigger(config, history, t) && now < t + config.lockout
  }

  /** The answer of a guard that looks at the whole history: refused until the lockout of the latest trigger ends. */
  ghost predicate FullHistoryAnswer(config: Config, history: seq<Time>, now: Time, answer: Answer) {
    if Refused(config, history, now) then
      !answer.allowed && exists t: Time :: Trigger(config, history, t) && now < t + config.lockout
                                     && (forall u: Time :: Trigger(config, history, u) ==> u <= t)
                                     && answer.retryAfter == RetryAfterSeconds(t + config.lockout, now)
    else answer == ALLOWED
  }

  /** The last clock reading of a run. */
  ghost function LastNow(events: seq<Event>): Time {
    if events == [] then 0
    else
      var n := |events| - 1;
      if events[n].Check? || events[n].Failure? then events[n].now else LastNow(events[..n])
  }

  ghost predicate ClockNeverGoesBack(events: seq<Event>) {
    if events == [] then true
    else
      var n := |events| - 1;
      ClockNeverGoesBack(events[..n])
      && (events[n].Check? || events[n].Failure? ==> LastNow(events[..n]) <= events[n].now)
  }

  /** The answers to the checks of `events` are those of the guard that remembers everything. */
  ghost predicate AnswersMatchHistory(config: Config, events: seq<Event>, answers: seq<Answer>) {
    if events == [] then answers == []
    else
      var n := |events| - 1;
      if events[n].Check? then
        && answers != []
        && AnswersMatchHistory(config, events[..n], answers[..|answers| - 1])
        && FullHistoryAnswer(config, History(events[..n], TrimSpace(events[n].key)), events[n].now,
                             answers[|answers| - 1])
      else AnswersMatchHistory(config, events[..n], answers)
  }

  // ----- pruning loses nothing that matters -----

  /** A pruned state stands for a history as far as any reading at or after `last` can tell. */
  ghost predicate StandsFor(config: Config, state: LoginState, history: seq<Time>, last: Time) {
    && (forall t: Time :: t in history ==> t <= last)
    && (forall cutoff: int :: cutoff >= last - config.window ==> Active(state.failures, cutoff) == Active(history, cutoff))
    && (state.lockoutUntil != 0 ==>
          exists t: Time :: Trigger(config, history, t) && state.lockoutUntil == t + config.lockout)
    && (forall t: Time :: Trigger(config, history, t) ==> t + config.lockout <= state.lockoutUntil || t + config.lockout <= last)
  }

  lemma {:induction false} ActiveComposes(failures: seq<Time>, low: int, high: int)
    requires low <= high
    ensures Active(Active(failures, low), high) == Active(failures, high)
  {
    if failures != [] {
      var n := |failures| - 1;
      ActiveComposes(failures[..n], low, high);
      ActiveAppends(Active(failures[..n], low), failures[n], high);
    }
  }

  lemma ActiveAppends(failures: seq<Time>, t: Time, cutoff: int)
    ensures Active(failures + [t], cutoff) == Active(failures, cutoff) + if t < cutoff then [] else [t]
  {
  }

  /** Nothing lies after the end of a window that reaches to the last failure. */
  lemma {:induction false} CountIsActive(failures: seq<Time>, low: int, high: int)
    requires forall t: Time :: t in failures ==> t <= high
    ensures CountBetween(failures, low, high) == |Active(failures, low)|
  {
    if failures != [] {
      var n := |failures| - 1;
      assert forall t: Time :: t in failures[..n] ==> t in failures;
      assert failures[n] in failures;
      CountIsActive(failures[..n], low, high);
    }
  }

  lemma CountAppends(failures: seq<Time>, t: Time, low: int, high: int)
    ensures CountBetween(failures + [t], low, high) == CountBetween(failures, low, high) + if low <= t <= high then 1 else 0
  {
  }

  /** The triggers once a failure at `now` is in: the earlier ones, and `now` if its window is full. */
  lemma TriggersAfterFailure(config: Config, history: seq<Time>, now: Time, t: Time)
    requires forall x: Time :: x in history ==> x <= now
    ensures t < now ==> (Trigger(config, history + [now], t) <==> Trigger(config, history, t))
    ensures t == now ==> (Trigger(config, history + [now], t)
                          <==> |Active(history, now - config.window) + [now]| >= config.maxAttempts)
    ensures t > now ==> !Trigger(config, history + [now], t)
    ensures t == now && Trigger(config, history, t) ==> Trigger(config, history + [now], t)
  {
    CountAppends(history, now, t - config.window, t);
    CountIsActive(history, now - config.window, now);
    assert t in history + [now] <==> t in history || t == now;
  }

  /** Dropping failures that no later reading can see keeps what the state stands for. */
  lemma PruneStandsFor(config: Config, state: LoginState, history: seq<Time>, last: Time, now: Time)
    requires StandsFor(config, state, history, last) && last <= now
    ensures StandsFor(config, state.(failures := Active(state.failures, now - config.window)), history, now)
  {
    var pruned := Active(state.failures, now - config.window);
    forall cutoff: int | cutoff >= now - config.window
      ensures Active(pruned, cutoff) == Active(history, cutoff)
    {
      ActiveComposes(state.failures, now - config.window, cutoff);
    }
  }

  lemma NothingStandsForEmpty(config: Config, last: Time)
    ensures StandsFor(config, NO_STATE, [], last)
  {
  }

  lemma CheckMatches(config: Config, states: States, key: string, history: seq<Time>, last: Time, now: Time)
    requires config.Valid() && StandsFor(config, StateOf(states, key), history, last) && last <= now
    ensures var (next, answer) := CheckStep(config, states, key, now);
            FullHistoryAnswer(config, history, now, answer) && StandsFor(config, StateOf(next, key), history, now)
  {
    var state := StateOf(states, key);
    PruneStandsFor(config, state, history, last, now);
    if state.lockoutUntil != 0 && now < state.lockoutUntil {
      var t: Time :| Trigger(config, history, t) && state.lockoutUntil == t + config.lockout;
      forall u: Time | Trigger(config, history, u)
        ensures u <= t
      {
        assert u + config.lockout <= state.lockoutUntil || u + config.lockout <= last;
      }
      assert Refused(config, history, now);
    } else {
      assert !Refused(config, history, now);
    }
  }

  lemma FailureKeepsActive(config: Config, failures: seq<Time>, history: seq<Time>, now: Time, cutoff: int)
    requires Active(failures, cutoff) == Active(history, cutoff) && cutoff >= now - config.window
    ensures Active(Active(failures, now - config.window) + [now], cutoff) == Active(history + [now], cutoff)
  {
    ActiveComposes(failures, now - config.window, cutoff);
    ActiveAppends(Active(failures, now - config.window), now, cutoff);
    ActiveAppends(history, now, cutoff);
  }

  /** The lockout after a failure, and every trigger, agree as far as `now` can tell. */
  lemma LockoutAfterFailure(config: Config, state: LoginState, history: seq<Time>, last: Time, now: Time, until: Time)
    requires config.Valid() && StandsFor(config, state, history, last) && last <= now
    requires var full := |Active(history, now - config.window) + [now]| >= config.maxAttempts;
             until == if full then now + config.lockout else state.lockoutUntil
    ensures until != 0 ==> exists t: Time :: Trigger(config, history + [now], t) && until == t + config.lockout
    ensures forall t: Time :: Trigger(config, history + [now], t) ==>
              t + config.lockout <= until || t + config.lockout <= now
  {
    forall t: Time | Trigger(config, history + [now], t)
      ensures t + config.lockout <= until || t + config.lockout <= now
    {
      TriggersAfterFailure(config, history, now, t);
    }
    TriggersAfterFailure(config, history, now, now);
    if until != 0 && until != now + config.lockout {
      var t: Time :| Trigger(config, history, t) && state.lockoutUntil == t + config.lockout;
      TriggersAfterFailure(config, history, now, t);
    } else if until != 0 && |Active(history, now - config.window) + [now]| < config.maxAttempts {
      var t: Time :| Trigger(config, history, t) && state.lockoutUntil == t + config.lockout;
      TriggersAfterFailure(config, history, now, t);
    }
  }

  lemma FailureMatches(config: Config, states: States, key: string, history: seq<Time>, last: Time, now: Time)
    requires config.Valid() && StandsFor(config, StateOf(states, key), history, last) && last <= now
    ensures StandsFor(config, StateOf(FailureStep(config, states, key, now), key), history + [now], now)
  {
    var state := StateOf(states, key);
    var next := StateOf(FailureStep(config, states, key, now), key);
    forall cutoff: int | cutoff >= now - config.window
      ensures Active(next.failures, cutoff) == Active(history + [now], cutoff)
    {
      FailureKeepsActive(config, state.failures, history, now, cutoff);
    }
    assert Active(state.failures, now - config.window) == Active(history, now - config.window);
    LockoutAfterFailure(config, state, history, last, now, next.lockoutUntil);
  }

  lemma TimePasses(config: Config, state: LoginState, history: seq<Time>, last: Time, now: Time)
    requires StandsFor(config, state, history, last) && last <= now
    ensures StandsFor(config, state, history, now)
  {
  }

  ghost predicate AllStandFor(config: Config, states: States, events: seq<Event>) {
    forall key :: StandsFor(config, StateOf(states, key), History(events, key), LastNow(events))
  }

  lemma StepStandsFor(config: Config, events: seq<Event>)
    requires config.Valid() && events != [] && ClockNeverGoesBack(events)
    requires var front := events[..|events| - 1]; AllStandFor(config, Run(config, front).states, front)
    ensures AllStandFor(config, Run(config, events).states, events)
  {
    var n, front := |events| - 1, events[..|events| - 1];
    var states := Run(config, front).states;
    forall key
      ensures StandsFor(config, StateOf(Run(config, events).states, key), History(events, key), LastNow(events))
    {
      assert StandsFor(config, StateOf(states, key), History(front, key), LastNow(front));
      NothingStandsForEmpty(config, LastNow(front));
      match events[n] {
        case Check(k, now) =>
          if TrimSpace(k) == key {
            CheckMatches(config, states, key, History(front, key), LastNow(front), now);
          } else {
            assert StateOf(Run(config, events).states, key) == StateOf(states, key);
            TimePasses(config, StateOf(states, key), History(front, key), LastNow(front), now);
          }
        case Failure(k, now) =>
          if TrimSpace(k) == key {
            FailureMatches(config, states, key, History(front, key), LastNow(front), now);
          } else {
            assert StateOf(Run(config, events).states, key) == StateOf(states, key);
            assert History(events, key) == History(front, key);
            TimePasses(config, StateOf(states, key), History(front, key), LastNow(front), now);
          }
        case Success(k) =>
          assert TrimSpace(k) != key ==> StateOf(Run(config, events).states, key) == StateOf(states, key);
        case Reset =>
          assert StateOf(Run(config, events).states, key) == NO_STATE && History(events, key) == [];
      }
    }
  }

  lemma {:induction false} RunStandsForHistory(config: Config, events: seq<Event>)
    requires config.Valid() && ClockNeverGoesBack(events)
    ensures AllStandFor(config, Run(config, events).states, events)
  {
    if events != [] {
      RunStandsForHistory(config, events[..|events| - 1]);
      StepStandsFor(config, events);
    } else {
      NothingStandsForEmpty(config, 0);
    }
  }

  /** Over any interleaving of keys and calls the pruning guard answers like one that forgets nothing. */
  lemma {:induction false} PrunedGuardAgreesWithFullHistory(config: Config, events: seq<Event>)
    requires config.Valid() && ClockNeverGoesBack(events)
    ensures AnswersMatchHistory(config, events, Run(config, events).answers)
  {
    if events != [] {
      var n, front := |events| - 1, events[..|events| - 1];
      PrunedGuardAgreesWithFullHistory(config, front);
      match events[n] {
        case Check(key, now) =>
          RunStandsForHistory(config, front);
          CheckMatches(config, Run(config, front).states, TrimSpace(key), History(front, TrimSpace(key)),
                       LastNow(front), now);
          var answers := Run(config, events).answers;
          assert answers[..|answers| - 1] == Run(config, front).answers;
        case _ =>
      }
    }
  }

  /** An allowed check forgets a key without failures in the window, and keeps those of any other without a lockout. */
  lemma IdleKeyIsForgotten(config: Config, states: States, key: string, now: Time)
    requires CheckStep(config, states, key, now).1 == ALLOWED
    ensures var next := CheckStep(config, states, key, now).0;
            && (key in next <==> exists t: Time :: t in StateOf(states, key).failures && t >= now - config.window)
            && (key in next ==> next[key].lockoutUntil == 0)
            && next - {key} == states - {key}
  {
    ActiveMembers(StateOf(states, key).failures, now - config.window);
    var active := Active(StateOf(states, key).failures, now - config.window);
    if active != [] {
      assert active[0] in active;
    }
  }

  lemma {:induction false} ActiveMembers(failures: seq<Time>, cutoff: int)
    ensures forall t: Time :: t in Active(failures, cutoff) <==> t in failures && t >= cutoff
  {
    if failures != [] {
      var n := |failures| - 1;
      ActiveMembers(failures[..n], cutoff);
      assert failures == failures[..n] + [failures[n]];
    }
  }

  /** Registering a success, or resetting, lets the key in again at once. */
  lemma ForgivenKeyIsAllowed(config: Config, events: seq<Event>, key: string, now: Time)
    requires events != [] && (events[|events| - 1] == Reset || events[|events| - 1] == Success(key))
    ensures CheckStep(config, Run(config, events).states, TrimSpace(key), now).1 == ALLOWED
  {
  }
}
