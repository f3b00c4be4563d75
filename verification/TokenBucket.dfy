/** The distributed rate limiter: token buckets that are refilled, checked and charged together. */
module TokenBucket {
  import opened Messages

  const STREAM_MESSAGES_RATE_LIMIT_WINDOW_MS := 60000
  const DEFAULT_PUBLIC_ACTOR_REQUESTS_PER_MINUTE := 120
  const DEFAULT_PUBLIC_IP_REQUESTS_PER_MINUTE := 300
  const DEFAULT_SYNC_ACTOR_REQUESTS_PER_MINUTE := 120
  const WINDOW: real := 60000.0
  const COST: real := 1.0

  datatype Scope = PublicActor | PublicIp | SyncActor

  datatype Key = Key(scope: Scope, subjectDigest: string)

  /** What is stored under a key; both fields are always written together. */
  datatype Entry = Entry(tokens: real, updatedAtMs: int)

  type Entries = map<Key, Entry>

  datatype Config = Config(publicActor: int, publicIp: int, syncActor: int)

  datatype Decision = Allowed | Denied(retryAfterMs: int)

  /** The capacities that the limiter can be created with. */
  predicate IsConfig(c: Config) {
    && 1 <= c.publicActor <= DEFAULT_PUBLIC_ACTOR_REQUESTS_PER_MINUTE
    && 1 <= c.publicIp <= DEFAULT_PUBLIC_IP_REQUESTS_PER_MINUTE
    && 1 <= c.syncActor <= DEFAULT_SYNC_ACTOR_REQUESTS_PER_MINUTE
  }

  function Capacity(c: Config, k: Key): (capacity: real)
    ensures IsConfig(c) ==> COST <= capacity <= 300.0
  {
    match k.scope
    case PublicActor => c.publicActor as real
    case PublicIp => c.publicIp as real
    case SyncActor => c.syncActor as real
  }

  function Max(a: int, b: int): int {
    if a < b then b else a
  }

  function Least(a: real, b: real): real {
    if a < b then a else b
  }

  function Ceil(x: real): (n: int)
    ensures (n as real) - 1.0 < x <= n as real
  {
    -(-x).Floor
  }

  // --- The script, on values ---

  function Gain(capacity: real, ms: int): real {
    ms as real * capacity / WINDOW
  }

  function Refilled(capacity: real, tokens: real, elapsedMs: int): real {
    Least(capacity, tokens + Gain(capacity, elapsedMs))
  }

  function StoredTokens(c: Config, entries: Entries, k: Key): real {
    if k in entries then entries[k].tokens else Capacity(c, k)
  }

  function StoredTime(entries: Entries, k: Key, now: int): int {
    if k in entries then entries[k].updatedAtMs else now
  }

  /** The tokens a bucket has at a time; an unknown bucket is full. */
  function Level(c: Config, entries: Entries, k: Key, now: int): real {
    Refilled(Capacity(c, k), StoredTokens(c, entries, k), Max(0, now - StoredTime(entries, k, now)))
  }

  /** How long a bucket takes to gain what is missing for one request. */
  function Missing(capacity: real, level: real): int
    requires capacity > 0.0
  {
    Ceil((COST - level) * WINDOW / capacity)
  }

  function RetryAfter(capacity: real, level: real): int
    requires capacity > 0.0
  {
    if level < COST then Missing(capacity, level) else 0
  }

  predicate AllPass(c: Config, entries: Entries, keys: seq<Key>, now: int) {
    forall i :: 0 <= i < |keys| ==> COST <= Level(c, entries, keys[i], now)
  }

  function MaxRetryAfter(c: Config, entries: Entries, keys: seq<Key>, now: int): int
    requires IsConfig(c)
    decreases |keys|
  {
    if keys == [] then 0
    else
      var last := keys[|keys| - 1];
      Max(MaxRetryAfter(c, entries, keys[..|keys| - 1], now),
          RetryAfter(Capacity(c, last), Level(c, entries, last, now)))
  }

  /** Every bucket of a request gets its level and the time written, less the charge. */
  function Charged(c: Config, entries: Entries, keys: seq<Key>, now: int, charge: real): Entries
    decreases |keys|
  {
    if keys == [] then entries
    else
      var last := keys[|keys| - 1];
      Charged(c, entries, keys[..|keys| - 1], now, charge)[last := Entry(Level(c, entries, last, now) - charge, now)]
  }

  function Consume(c: Config, entries: Entries, keys: seq<Key>, now: int): (Entries, Decision)
    requires IsConfig(c)
  {
    if AllPass(c, entries, keys, now) then (Charged(c, entries, keys, now, COST), Allowed)
    else (Charged(c, entries, keys, now, 0.0), Denied(MaxRetryAfter(c, entries, keys, now)))
  }

  /** What the script answers must have this form, or the limiter counts as unavailable. */
  predicate IsResult(allowed: int, retryAfterMs: int) {
    && (allowed == 0 || allowed == 1)
    && 0 <= retryAfterMs <= MAX_SAFE_INTEGER
    && !(allowed == 0 && retryAfterMs == 0)
  }

  // --- The script, on the store ---

  datatype State = State(key: Key, tokens: real)

  class Redis {
    var entries: Entries

    /** The first loop reads and checks all buckets. */
    method ReadStates(c: Config, keys: seq<Key>, now: int)
        returns (states: seq<State>, allowed: int, maxRetryAfterMs: int)
      requires IsConfig(c)
      ensures |states| == |keys| && forall i :: 0 <= i < |keys| ==>
              states[i] == State(keys[i], Level(c, entries, keys[i], now))
      ensures allowed == if AllPass(c, entries, keys, now) then 1 else 0
      ensures maxRetryAfterMs == MaxRetryAfter(c, entries, keys, now)
    {
      states, allowed, maxRetryAfterMs := [], 1, 0;
      for index := 0 to |keys|
        invariant |states| == index
        invariant forall i :: 0 <= i < index ==> states[i] == State(keys[i], Level(c, entries, keys[i], now))
        invariant allowed == if AllPass(c, entries, keys[..index], now) then 1 else 0
        invariant maxRetryAfterMs == MaxRetryAfter(c, entries, keys[..index], now) >= 0
      {
        assert keys[..index + 1][..index] == keys[..index] && keys[..index + 1][index] == keys[index];
        var key := keys[index];
        var capacity := Capacity(c, key);
        var tokens := StoredTokens(c, entries, key);
        var updatedAtMs := StoredTime(entries, key, now);
        var elapsedMs := Max(0, now - updatedAtMs);
        tokens := Refilled(capacity, tokens, elapsedMs);
        var retryAfterMs := 0;
        if tokens < COST {
          allowed := 0;
          retryAfterMs := Missing(capacity, tokens);
          maxRetryAfterMs := Max(maxRetryAfterMs, retryAfterMs);
        }
        states := states + [State(key, tokens)];
      }
      assert keys[..|keys|] == keys;
    }

    /** The second loop writes them. */
    method WriteStates(c: Config, keys: seq<Key>, states: seq<State>, allowed: int, now: int)
      requires |states| == |keys| && forall i :: 0 <= i < |keys| ==>
               states[i] == State(keys[i], Level(c, entries, keys[i], now))
      modifies this
      ensures entries == Charged(c, old(entries), keys, now, if allowed == 1 then COST else 0.0)
    {
      for index := 0 to |states|
        invariant entries == Charged(c, old(entries), keys[..index], now, if allowed == 1 then COST else 0.0)
      {
        assert keys[..index + 1][..index] == keys[..index] && keys[..index + 1][index] == keys[index];
        var tokens := states[index].tokens;
        if allowed == 1 {
          tokens := tokens - COST;
        }
        entries := entries[states[index].key := Entry(tokens, now)];
      }
      assert keys[..|keys|] == keys;
    }

    method EvalTokenBucket(c: Config, keys: seq<Key>, now: int) returns (allowed: int, maxRetryAfterMs: int)
      requires IsConfig(c)
      modifies this
      ensures (entries, if allowed == 1 then Allowed else Denied(maxRetryAfterMs))
              == Consume(c, old(entries), keys, now)
      ensures (allowed == 0 || allowed == 1) && maxRetryAfterMs == MaxRetryAfter(c, old(entries), keys, now)
    {
      var states: seq<State>;
      states, allowed, maxRetryAfterMs := ReadStates(c, keys, now);
      WriteStates(c, keys, states, allowed, now);
    }
  }
}
