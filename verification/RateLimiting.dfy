/** The window state, its normalisation, and the row store shared by the limiters. */
module RateLimiting {
  import opened Results
  import opened Times

  datatype WindowState = WindowState(eventCount: int, windowStartedAt: Time, blockedUntil: Time)

  datatype StateKey = StateKey(namespaceName: string, rateKey: string)

  /** What a limiter tells its caller. */
  datatype Answer = Answer(allowed: bool, retryAfter: int)

  const ALLOWED := Answer(true, 0)

  /** A new row, whether it is kept, and what the mutator reports on the way. */
  datatype Mutation<+A> = Mutation(next: WindowState, persist: bool, answer: A)

  function NormalizeWindowState(state: WindowState, now: Time, window: nat, resetCountOnBlockExpiry: bool): WindowState {
    if state.windowStartedAt == 0 || now - state.windowStartedAt >= window then WindowState(0, now, 0)
    else if state.blockedUntil != 0 && now >= state.blockedUntil then
      (if resetCountOnBlockExpiry then WindowState(0, now, 0)
       else WindowState(state.eventCount, state.windowStartedAt, 0))
    else state
  }

  /** Whole seconds, rounded down, and never less than one. */
  function RetryAfterSeconds(blockedUntil: Time, now: Time): (seconds: int)
    ensures seconds >= 1
  {
    if blockedUntil - now < NANOS_PER_SECOND then 1 else (blockedUntil - now) / NANOS_PER_SECOND
  }

  /** The wait announced is the whole seconds that remain, and one second when fewer remain. */
  lemma RetryAfterIsRemaining(blockedUntil: Time, now: Time)
    ensures var remaining, seconds := blockedUntil - now, RetryAfterSeconds(blockedUntil, now);
            if remaining < 1_000_000_000 then seconds == 1
            else seconds * 1_000_000_000 <= remaining < (seconds + 1) * 1_000_000_000
  {
  }

  function AtLeast(value: int, minimum: int): int {
    if value < minimum then minimum else value
  }

  type Rows = map<StateKey, WindowState>

  /** The row a mutator is given: the stored one, or one inserted with no events. */
  function RowFor(rows: Rows, key: StateKey, now: Time): WindowState {
    if key in rows then rows[key] else WindowState(0, now, 0)
  }

  /** The rows but those of one namespace. */
  function WithoutNamespace(rows: Rows, namespaceName: string): Rows {
    map key | key in rows && key.namespaceName != namespaceName :: rows[key]
  }

  /**
   * The distributed store. A mutation is one atomic read-modify-write of one row: when the mutator or the
   * transaction fails nothing is changed, and a commit that fails is taken not to have happened.
   */
  class RateLimitStore {
    var rows: Rows

    constructor ()
      ensures rows == map[]
    {
      rows := map[];
    }

    method MutateState<A>(key: StateKey, now: Time, mutator: WindowState -> Result<Mutation<A>>) returns (r: Result<A>)
      modifies this
      ensures r.Err? ==> rows == old(rows)
      ensures var mutation := mutator(RowFor(old(rows), key, now));
              r.Ok? ==>
                && mutation.Ok? && r.value == mutation.value.answer
                && rows == old(rows)[key := if mutation.value.persist then mutation.value.next
                                            else RowFor(old(rows), key, now)]
    {
      if * {
        return Err("store unavailable");
      }
      var before := rows;
      if key !in rows {
        rows := rows[key := WindowState(0, now, 0)];
      }
      var mutation := mutator(rows[key]);
      if mutation.Err? {
        rows := before;
        return Err(mutation.error);
      }
      if mutation.value.persist {
        rows := rows[key := mutation.value.next];
      }
      if * {
        rows := before;
        return Err("commit failed");
      }
      r := Ok(mutation.value.answer);
    }

    method DeleteState(key: StateKey) returns (ok: bool)
      modifies this
      ensures rows == if ok then old(rows) - {key} else old(rows)
    {
      ok := *;
      if ok {
        rows := rows - {key};
      }
    }

    method ClearNamespace(namespaceName: string) returns (ok: bool)
      modifies this
      ensures rows == if ok then WithoutNamespace(old(rows), namespaceName) else old(rows)
    {
      ok := *;
      if ok {
        rows := WithoutNamespace(rows, namespaceName);
      }
    }
  }
}
