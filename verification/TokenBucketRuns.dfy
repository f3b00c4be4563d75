/** What the rate limiter promises over whole runs. */
module TokenBucketRuns {
  import opened TokenBucket

  // --- Refilling ---

  lemma GainAdds(capacity: real, a: int, b: int)
    ensures Gain(capacity, a + b) == Gain(capacity, a) + Gain(capacity, b)
  {
    assert (a + b) as real == a as real + b as real;
  }

  lemma GainGrows(capacity: real, a: int, b: int)
    requires capacity > 0.0 && a <= b
    ensures Gain(capacity, a) <= Gain(capacity, b) && Gain(capacity, 0) == 0.0
  {
    var d := b - a;
    GainAdds(capacity, a, d);
    assert d as real * capacity >= 0.0;
  }

  lemma GainOfWindow(capacity: real)
    ensures Gain(capacity, STREAM_MESSAGES_RATE_LIMIT_WINDOW_MS) == capacity
  {
  }

  /** Refilling in two steps is refilling once. */
  lemma RefilledTwice(capacity: real, tokens: real, a: int, b: int)
    requires capacity > 0.0 && 0 <= a && 0 <= b
    ensures Refilled(capacity, Refilled(capacity, tokens, a), b) == Refilled(capacity, tokens, a + b)
  {
    GainAdds(capacity, a, b);
    GainGrows(capacity, 0, a);
    GainGrows(capacity, 0, b);
  }

  lemma ProductGrows(a: real, b: real, c: real)
    requires c > 0.0
    ensures a <= b <==> a * c <= b * c
  {
    if a <= b {
      assert (b - a) * c >= 0.0;
    } else {
      assert (a - b) * c > 0.0;
    }
  }

  lemma GainReaches(capacity: real, lack: real, ms: real)
    requires capacity > 0.0
    ensures lack * WINDOW / capacity <= ms <==> lack <= ms * capacity / WINDOW
  {
    var t, g := lack * WINDOW / capacity, ms * capacity / WINDOW;
    assert t * capacity == lack * WINDOW && g * WINDOW == ms * capacity;
    ProductGrows(t, ms, capacity);
    ProductGrows(lack, g, WINDOW);
  }

  /** A bucket gains what a request lacks exactly from the announced time on. */
  lemma MissingIsLeast(capacity: real, level: real, ms: int)
    requires capacity >= COST && level <= capacity && 0 <= ms
    ensures COST <= Refilled(capacity, level, ms) <==> RetryAfter(capacity, level) <= ms
    ensures level < COST <==> 0 < RetryAfter(capacity, level)
    ensures 0.0 <= level ==> RetryAfter(capacity, level) <= STREAM_MESSAGES_RATE_LIMIT_WINDOW_MS
  {
    GainGrows(capacity, 0, ms);
    if level < COST {
      var lack := COST - level;
      GainReaches(capacity, lack, ms as real);
      GainReaches(capacity, lack, 0.0);
      GainReaches(capacity, lack, WINDOW);
    }
  }

  // --- The store ---

  ghost predicate InRange(c: Config, entries: Entries) {
    forall k :: k in entries ==> 0.0 <= entries[k].tokens <= Capacity(c, k)
  }

  ghost predicate NotAhead(entries: Entries, now: int) {
    forall k :: k in entries ==> entries[k].updatedAtMs <= now
  }

  lemma LevelInRange(c: Config, entries: Entries, k: Key, now: int)
    requires IsConfig(c) && InRange(c, entries)
    ensures 0.0 <= Level(c, entries, k, now) <= Capacity(c, k)
  {
    GainGrows(Capacity(c, k), 0, Max(0, now - StoredTime(entries, k, now)));
  }

  /** What is written does not depend on the order of the keys, nor on repeats. */
  lemma {:induction false} ChargedEntry(c: Config, entries: Entries, keys: seq<Key>, now: int, charge: real, k: Key)
    ensures var after := Charged(c, entries, keys, now, charge);
            if k in keys then k in after && after[k] == Entry(Level(c, entries, k, now) - charge, now)
            else (k in after <==> k in entries) && (k in entries ==> after[k] == entries[k])
    decreases |keys|
  {
    if keys != [] {
      var init, last := keys[..|keys| - 1], keys[|keys| - 1];
      assert keys == init + [last];
      ChargedEntry(c, entries, init, now, charge, k);
    }
  }

  /** Tokens stay between zero and the capacity, whatever the clock does. */
  lemma ConsumeKeepsRange(c: Config, entries: Entries, keys: seq<Key>, now: int)
    requires IsConfig(c) && InRange(c, entries)
    ensures InRange(c, Consume(c, entries, keys, now).0)
  {
    var (after, decision) := Consume(c, entries, keys, now);
    var charge := if decision.Allowed? then COST else 0.0;
    forall k | k in after ensures 0.0 <= after[k].tokens <= Capacity(c, k) {
      ChargedEntry(c, entries, keys, now, charge, k);
      LevelInRange(c, entries, k, now);
      if k in keys {
        var i :| 0 <= i < |keys| && keys[i] == k;
      }
    }
  }

  lemma ConsumeKeepsTime(c: Config, entries: Entries, keys: seq<Key>, now: int)
    requires IsConfig(c) && NotAhead(entries, now)
    ensures NotAhead(Consume(c, entries, keys, now).0, now)
  {
    var (after, decision) := Consume(c, entries, keys, now);
    forall k | k in after ensures after[k].updatedAtMs <= now {
      ChargedEntry(c, entries, keys, now, if decision.Allowed? then COST else 0.0, k);
    }
  }

  lemma LevelLater(c: Config, entries: Entries, k: Key, now: int, later: int)
    requires IsConfig(c) && InRange(c, entries) && NotAhead(entries, now) && now <= later
    ensures Level(c, entries, k, later) == Refilled(Capacity(c, k), Level(c, entries, k, now), later - now)
  {
    if k in entries {
      RefilledTwice(Capacity(c, k), entries[k].tokens, now - entries[k].updatedAtMs, later - now);
    } else {
      GainGrows(Capacity(c, k), 0, later - now);
    }
  }

  function Charge(c: Config, entries: Entries, keys: seq<Key>, now: int, k: Key): real {
    if AllPass(c, entries, keys, now) && k in keys then COST else 0.0
  }

  /** A request changes the later levels by its charge, and by nothing else. */
  lemma LevelAfter(c: Config, entries: Entries, keys: seq<Key>, now: int, k: Key, later: int)
    requires IsConfig(c) && InRange(c, entries) && NotAhead(entries, now) && now <= later
    ensures Level(c, Consume(c, entries, keys, now).0, k, later)
         == Refilled(Capacity(c, k), Level(c, entries, k, now) - Charge(c, entries, keys, now, k), later - now)
  {
    ChargedEntry(c, entries, keys, now, if AllPass(c, entries, keys, now) then COST else 0.0, k);
    LevelLater(c, entries, k, now, later);
  }

  /** A denial by any bucket charges none of them: it leaves every later level as it was. */
  lemma DenialChargesNothing(c: Config, entries: Entries, keys: seq<Key>, now: int, k: Key, later: int)
    requires IsConfig(c) && InRange(c, entries) && NotAhead(entries, now) && now <= later
    requires Consume(c, entries, keys, now).1.Denied?
    ensures Level(c, Consume(c, entries, keys, now).0, k, later) == Level(c, entries, k, later)
  {
    LevelAfter(c, entries, keys, now, k, later);
    LevelLater(c, entries, k, now, later);
  }

  // --- When to retry ---

  lemma WaitForOne(c: Config, entries: Entries, k: Key, now: int, later: int)
    requires IsConfig(c) && InRange(c, entries) && NotAhead(entries, now) && now <= later
    ensures var wait := RetryAfter(Capacity(c, k), Level(c, entries, k, now));
            && (COST <= Level(c, entries, k, later) <==> wait <= later - now)
            && wait <= STREAM_MESSAGES_RATE_LIMIT_WINDOW_MS
  {
    LevelInRange(c, entries, k, now);
    LevelLater(c, entries, k, now, later);
    MissingIsLeast(Capacity(c, k), Level(c, entries, k, now), later - now);
  }

  /** All buckets have enough tokens exactly from the greatest of their waiting times on. */
  lemma {:induction false} WaitForAll(c: Config, entries: Entries, keys: seq<Key>, now: int, later: int)
    requires IsConfig(c) && InRange(c, entries) && NotAhead(entries, now) && now <= later
    ensures AllPass(c, entries, keys, later) <==> MaxRetryAfter(c, entries, keys, now) <= later - now
    ensures 0 <= MaxRetryAfter(c, entries, keys, now) <= STREAM_MESSAGES_RATE_LIMIT_WINDOW_MS
    decreases |keys|
  {
    if keys != [] {
      var init, last := keys[..|keys| - 1], keys[|keys| - 1];
      WaitForAll(c, entries, init, now, later);
      WaitForOne(c, entries, last, now, later);
      assert AllPass(c, entries, keys, later) <==>
          AllPass(c, entries, init, later) && COST <= Level(c, entries, last, later);
    }
  }

  /** The announced delay is positive, and the least after which the same request passes if nobody else comes. */
  lemma RetryAfterIsLeast(c: Config, entries: Entries, keys: seq<Key>, now: int, later: int)
    requires IsConfig(c) && InRange(c, entries) && NotAhead(entries, now) && now <= later
    requires Consume(c, entries, keys, now).1.Denied?
    ensures var (after, decision) := Consume(c, entries, keys, now);
            && 0 < decision.retryAfterMs
            && (Consume(c, after, keys, later).1.Allowed? <==> now + decision.retryAfterMs <= later)
  {
    WaitForAll(c, entries, keys, now, now);
    WaitForAll(c, entries, keys, now, later);
    var after := Consume(c, entries, keys, now).0;
    forall i | 0 <= i < |keys| ensures Level(c, after, keys[i], later) == Level(c, entries, keys[i], later) {
      DenialChargesNothing(c, entries, keys, now, keys[i], later);
    }
  }

  /** The answer of the script is always one that the caller can read. */
  lemma AnswerIsReadable(c: Config, entries: Entries, keys: seq<Key>, now: int)
    requires IsConfig(c) && InRange(c, entries) && NotAhead(entries, now)
    ensures IsResult(if AllPass(c, entries, keys, now) then 1 else 0, MaxRetryAfter(c, entries, keys, now))
  {
    WaitForAll(c, entries, keys, now, now);
  }

  // --- Runs ---

  /** Entries that nobody has touched for two windows may expire at any time. */
  datatype Event = Request(keys: seq<Key>, now: int) | Expire(key: Key, now: int)

  predicate MayExpire(entries: Entries, k: Key, now: int) {
    k in entries && now - entries[k].updatedAtMs >= 2 * STREAM_MESSAGES_RATE_LIMIT_WINDOW_MS
  }

  function Step(c: Config, entries: Entries, e: Event): Entries
    requires IsConfig(c)
  {
    match e
    case Request(keys, now) => Consume(c, entries, keys, now).0
    case Expire(k, now) => if MayExpire(entries, k, now) then entries - {k} else entries
  }

  function Run(c: Config, entries: Entries, events: seq<Event>): Entries
    requires IsConfig(c)
    decreases |events|
  {
    if events == [] then entries else Run(c, Step(c, entries, events[0]), events[1..])
  }

  /** How many requests an event admits to a bucket. */
  function AdmittedBy(c: Config, entries: Entries, e: Event, k: Key): int
    requires IsConfig(c)
  {
    if e.Request? && k in e.keys && Consume(c, entries, e.keys, e.now).1.Allowed? then 1 else 0
  }

  /** How many requests that use a bucket are allowed. */
  function Admitted(c: Config, entries: Entries, events: seq<Event>, k: Key): int
    requires IsConfig(c)
    decreases |events|
  {
    if events == [] then 0
    else
      AdmittedBy(c, entries, events[0], k) + Admitted(c, Step(c, entries, events[0]), events[1..], k)
  }

  /** The clock does not go back. */
  predicate Timed(events: seq<Event>, from: int, to: int)
    decreases |events|
  {
    if events == [] then from <= to else from <= events[0].now && Timed(events[1..], events[0].now, to)
  }

  /** An entry that may expire is full again. */
  lemma ExpiryKeepsLevels(c: Config, entries: Entries, k: Key, now: int, other: Key, later: int)
    requires IsConfig(c) && InRange(c, entries) && MayExpire(entries, k, now) && now <= later
    ensures Level(c, entries - {k}, other, later) == Level(c, entries, other, later)
  {
    if other == k {
      var capacity, elapsed := Capacity(c, k), later - entries[k].updatedAtMs;
      GainOfWindow(capacity);
      GainGrows(capacity, STREAM_MESSAGES_RATE_LIMIT_WINDOW_MS, elapsed);
      GainGrows(capacity, 0, elapsed);
    }
  }

  lemma StepKeeps(c: Config, entries: Entries, e: Event)
    requires IsConfig(c) && InRange(c, entries) && NotAhead(entries, e.now)
    ensures InRange(c, Step(c, entries, e)) && NotAhead(Step(c, entries, e), e.now)
  {
    if e.Request? {
      ConsumeKeepsRange(c, entries, e.keys, e.now);
      ConsumeKeepsTime(c, entries, e.keys, e.now);
    }
  }

  lemma RequestTakes(c: Config, entries: Entries, keys: seq<Key>, now: int, k: Key)
    requires IsConfig(c) && InRange(c, entries)
    ensures Level(c, Consume(c, entries, keys, now).0, k, now)
            == Level(c, entries, k, now) - Charge(c, entries, keys, now, k)
  {
    ChargedEntry(c, entries, keys, now, if AllPass(c, entries, keys, now) then COST else 0.0, k);
    LevelInRange(c, entries, k, now);
    GainGrows(Capacity(c, k), 0, 0);
  }

  /** What one event takes out of a bucket, measured at its own time. */
  lemma StepTakes(c: Config, entries: Entries, e: Event, k: Key)
    requires IsConfig(c) && InRange(c, entries)
    ensures InRange(c, Step(c, entries, e))
    ensures Level(c, Step(c, entries, e), k, e.now)
         == Level(c, entries, k, e.now) - (if e.Request? then Charge(c, entries, e.keys, e.now, k) else 0.0)
  {
    match e {
      case Request(keys, now) =>
        ConsumeKeepsRange(c, entries, keys, now);
        RequestTakes(c, entries, keys, now, k);
      case Expire(x, now) =>
        if MayExpire(entries, x, now) {
          ExpiryKeepsLevels(c, entries, x, now, k, now);
        }
    }
  }

  /** A bucket gains at most as much as the clock goes forward; it loses nothing when the clock goes back. */
  lemma LevelGains(c: Config, entries: Entries, k: Key, now: int, later: int)
    requires IsConfig(c) && InRange(c, entries)
    ensures Level(c, entries, k, later) <= Level(c, entries, k, now) + Gain(Capacity(c, k), Max(0, later - now))
  {
    var capacity, forward := Capacity(c, k), Max(0, later - now);
    var x, y := Max(0, now - StoredTime(entries, k, now)), Max(0, later - StoredTime(entries, k, later));
    if k in entries {
      GainGrows(capacity, y, x + forward);
      GainAdds(capacity, x, forward);
    }
    GainGrows(capacity, 0, forward);
    GainGrows(capacity, 0, x);
  }

  /** One event takes out of a bucket what it admits, and no more is left than was there and was gained. */
  lemma StepConserves(c: Config, entries: Entries, e: Event, k: Key, from: int)
    requires IsConfig(c) && InRange(c, entries)
    ensures InRange(c, Step(c, entries, e))
    ensures AdmittedBy(c, entries, e, k) as real + Level(c, Step(c, entries, e), k, e.now)
         <= Level(c, entries, k, from) + Gain(Capacity(c, k), Max(0, e.now - from))
  {
    StepTakes(c, entries, e, k);
    LevelGains(c, entries, k, from, e.now);
  }

  /** How far the clock goes forward over a run, not counting where it goes back. */
  function Forward(events: seq<Event>, from: int, to: int): (ms: int)
    ensures ms >= 0
    decreases |events|
  {
    if events == [] then Max(0, to - from) else Max(0, events[0].now - from) + Forward(events[1..], events[0].now, to)
  }

  /**
   * What is admitted and what is left in the end come from what was there and what was gained, whatever
   * the clock does.
   */
  lemma {:induction false} TokensAreConserved(c: Config, entries: Entries, events: seq<Event>, k: Key, from: int,
                                              to: int)
    requires IsConfig(c) && InRange(c, entries)
    ensures Admitted(c, entries, events, k) as real + Level(c, Run(c, entries, events), k, to)
         <= Level(c, entries, k, from) + Gain(Capacity(c, k), Forward(events, from, to))
    ensures InRange(c, Run(c, entries, events))
    decreases |events|
  {
    if events == [] {
      LevelGains(c, entries, k, from, to);
    } else {
      var e := events[0];
      StepConserves(c, entries, e, k, from);
      TokensAreConserved(c, Step(c, entries, e), events[1..], k, e.now, to);
      GainAdds(Capacity(c, k), Max(0, e.now - from), Forward(events[1..], e.now, to));
    }
  }

  /** A bucket admits at most its capacity and what it gains over the forward steps of the clock. */
  lemma AdmitsAtMostForward(c: Config, entries: Entries, events: seq<Event>, k: Key, from: int, to: int)
    requires IsConfig(c) && InRange(c, entries)
    ensures Admitted(c, entries, events, k) as real <= Capacity(c, k) + Gain(Capacity(c, k), Forward(events, from, to))
  {
    TokensAreConserved(c, entries, events, k, from, to);
    LevelInRange(c, entries, k, from);
    LevelInRange(c, Run(c, entries, events), k, to);
  }

  lemma {:induction false} TimedForward(events: seq<Event>, from: int, to: int)
    requires Timed(events, from, to)
    ensures from <= to && Forward(events, from, to) == to - from
    decreases |events|
  {
    if events != [] {
      TimedForward(events[1..], events[0].now, to);
    }
  }

  /** Over any interval of a clock that does not go back, that is the time that passes. */
  lemma AdmitsAtMost(c: Config, entries: Entries, events: seq<Event>, k: Key, from: int, to: int)
    requires IsConfig(c) && InRange(c, entries) && Timed(events, from, to)
    ensures Admitted(c, entries, events, k) as real <= Capacity(c, k) + Gain(Capacity(c, k), to - from)
  {
    TimedForward(events, from, to);
    AdmitsAtMostForward(c, entries, events, k, from, to);
  }

  // --- In the configured numbers ---

  /** A burst of one minute's requests, and what comes in addition over some milliseconds. */
  function Allowance(perMinute: int, ms: int): real {
    perMinute as real + ms as real * perMinute as real / 60000.0
  }

  lemma AdmitsUpTo(c: Config, entries: Entries, events: seq<Event>, k: Key, from: int, to: int, perMinute: int)
    requires IsConfig(c) && InRange(c, entries) && Timed(events, from, to) && Capacity(c, k) == perMinute as real
    ensures Admitted(c, entries, events, k) as real <= Allowance(perMinute, to - from)
  {
    AdmitsAtMost(c, entries, events, k, from, to);
  }

  /** Each kind of bucket admits what is configured for it, and what that number a minute gains in the time. */
  lemma AdmitsAsConfigured(c: Config, entries: Entries, events: seq<Event>, k: Key, from: int, to: int)
    requires IsConfig(c) && InRange(c, entries) && Timed(events, from, to)
    ensures var admitted := Admitted(c, entries, events, k) as real;
            match k.scope
            case PublicActor => admitted <= Allowance(c.publicActor, to - from)
            case PublicIp => admitted <= Allowance(c.publicIp, to - from)
            case SyncActor => admitted <= Allowance(c.syncActor, to - from)
  {
    match k.scope {
      case PublicActor => AdmitsUpTo(c, entries, events, k, from, to, c.publicActor);
      case PublicIp => AdmitsUpTo(c, entries, events, k, from, to, c.publicIp);
      case SyncActor => AdmitsUpTo(c, entries, events, k, from, to, c.syncActor);
    }
  }

  /** The same bucket asked `n` times at one time. */
  function Asked(k: Key, n: nat, now: int): seq<Event> {
    seq(n, _ => Request([k], now))
  }

  lemma OneRequest(c: Config, entries: Entries, k: Key, now: int)
    requires IsConfig(c) && InRange(c, entries)
    ensures Consume(c, entries, [k], now).1.Allowed? <==> 1.0 <= Level(c, entries, k, now)
    ensures Charge(c, entries, [k], now, k) == if 1.0 <= Level(c, entries, k, now) then 1.0 else 0.0
  {
    assert [k][0] == k;
  }

  lemma {:induction false} AdmitsItsTokens(c: Config, entries: Entries, k: Key, n: nat, now: int, tokens: nat)
    requires IsConfig(c) && InRange(c, entries) && NotAhead(entries, now) && Level(c, entries, k, now) == tokens as real
    ensures Admitted(c, entries, Asked(k, n, now), k) == if n < tokens then n else tokens
    ensures var after := Run(c, entries, Asked(k, n, now));
            && InRange(c, after) && NotAhead(after, now)
            && Level(c, after, k, now) == (if n < tokens then tokens - n else 0) as real
    decreases n
  {
    if n > 0 {
      var events, next := Asked(k, n, now), Consume(c, entries, [k], now).0;
      assert events[0] == Request([k], now) && events[1..] == Asked(k, n - 1, now);
      OneRequest(c, entries, k, now);
      RequestTakes(c, entries, [k], now, k);
      StepKeeps(c, entries, Request([k], now));
      AdmitsItsTokens(c, next, k, n - 1, now, if tokens > 0 then tokens - 1 else 0);
    }
  }

  /** A bucket that nobody has used admits, at one time, exactly as many requests as are configured for its kind. */
  lemma UnusedBucketAdmits(c: Config, entries: Entries, k: Key, n: nat, now: int)
    requires IsConfig(c) && InRange(c, entries) && NotAhead(entries, now) && k !in entries
    ensures var admitted := Admitted(c, entries, Asked(k, n, now), k);
            match k.scope
            case PublicActor => admitted == if n < c.publicActor then n else c.publicActor
            case PublicIp => admitted == if n < c.publicIp then n else c.publicIp
            case SyncActor => admitted == if n < c.syncActor then n else c.syncActor
  {
    var configured := match k.scope
      case PublicActor => c.publicActor
      case PublicIp => c.publicIp
      case SyncActor => c.syncActor;
    GainGrows(Capacity(c, k), 0, 0);
    AdmitsItsTokens(c, entries, k, n, now, configured);
  }

  lemma WholeToken(perMinute: nat, ms: nat)
    requires 1 <= perMinute
    ensures 1.0 <= Refilled(perMinute as real, 0.0, ms) <==> 60000 <= ms * perMinute
  {
    var product := ms * perMinute;
    assert ms as real * perMinute as real == product as real;
    assert Gain(perMinute as real, ms) == product as real / 60000.0;
  }

  /** A token comes back exactly when as many milliseconds have passed as a token takes at the configured rate. */
  lemma TokenComesBack(c: Config, entries: Entries, k: Key, now: int, ms: nat)
    requires IsConfig(c) && InRange(c, entries) && NotAhead(entries, now) && Level(c, entries, k, now) == 0.0
    ensures var allowed := Consume(c, entries, [k], now + ms).1.Allowed?;
            match k.scope
            case PublicActor => allowed <==> 60000 <= ms * c.publicActor
            case PublicIp => allowed <==> 60000 <= ms * c.publicIp
            case SyncActor => allowed <==> 60000 <= ms * c.syncActor
  {
    LevelLater(c, entries, k, now, now + ms);
    OneRequest(c, entries, k, now + ms);
    match k.scope {
      case PublicActor => WholeToken(c.publicActor, ms);
      case PublicIp => WholeToken(c.publicIp, ms);
      case SyncActor => WholeToken(c.syncActor, ms);
    }
  }

  // --- Expiry ---

  function Decisions(c: Config, entries: Entries, events: seq<Event>): seq<Decision>
    requires IsConfig(c)
    decreases |events|
  {
    if events == [] then []
    else
      (if events[0].Request? then [Consume(c, entries, events[0].keys, events[0].now).1] else [])
      + Decisions(c, Step(c, entries, events[0]), events[1..])
  }

  function WithoutExpiry(events: seq<Event>): seq<Event>
    decreases |events|
  {
    if events == [] then []
    else (if events[0].Request? then [events[0]] else []) + WithoutExpiry(events[1..])
  }

  ghost predicate SameLevels(c: Config, a: Entries, b: Entries, now: int) {
    forall k, later :: now <= later ==> Level(c, a, k, later) == Level(c, b, k, later)
  }

  lemma {:induction false} SameRetryAfter(c: Config, a: Entries, b: Entries, keys: seq<Key>, now: int)
    requires IsConfig(c) && SameLevels(c, a, b, now)
    ensures MaxRetryAfter(c, a, keys, now) == MaxRetryAfter(c, b, keys, now)
    ensures AllPass(c, a, keys, now) <==> AllPass(c, b, keys, now)
    decreases |keys|
  {
    if keys != [] {
      SameRetryAfter(c, a, b, keys[..|keys| - 1], now);
    }
  }

  lemma SameLevelsAfterRequest(c: Config, a: Entries, b: Entries, keys: seq<Key>, now: int)
    requires IsConfig(c) && InRange(c, a) && InRange(c, b) && NotAhead(a, now) && NotAhead(b, now)
    requires SameLevels(c, a, b, now)
    ensures Consume(c, a, keys, now).1 == Consume(c, b, keys, now).1
    ensures SameLevels(c, Consume(c, a, keys, now).0, Consume(c, b, keys, now).0, now)
  {
    SameRetryAfter(c, a, b, keys, now);
    forall k, later | now <= later
      ensures Level(c, Consume(c, a, keys, now).0, k, later) == Level(c, Consume(c, b, keys, now).0, k, later)
    {
      LevelAfter(c, a, keys, now, k, later);
      LevelAfter(c, b, keys, now, k, later);
    }
  }

  lemma SameLevelsAfterExpiry(c: Config, a: Entries, b: Entries, k: Key, now: int)
    requires IsConfig(c) && InRange(c, a) && SameLevels(c, a, b, now)
    ensures SameLevels(c, Step(c, a, Expire(k, now)), b, now)
  {
    if MayExpire(a, k, now) {
      forall other, later | now <= later ensures Level(c, a - {k}, other, later) == Level(c, b, other, later) {
        ExpiryKeepsLevels(c, a, k, now, other, later);
      }
    }
  }

  /** Dropping idle entries changes no decision: a store that never forgets would decide the same. */
  lemma {:induction false} ExpiryChangesNothing(c: Config, a: Entries, b: Entries, events: seq<Event>, from: int,
                                                to: int)
    requires IsConfig(c) && InRange(c, a) && InRange(c, b) && NotAhead(a, from) && NotAhead(b, from)
    requires SameLevels(c, a, b, from) && Timed(events, from, to)
    ensures Decisions(c, a, events) == Decisions(c, b, WithoutExpiry(events))
    decreases |events|
  {
    if events != [] {
      var e := events[0];
      StepKeeps(c, a, e);
      match e {
        case Request(keys, now) =>
          StepKeeps(c, b, e);
          SameLevelsAfterRequest(c, a, b, keys, now);
          ExpiryChangesNothing(c, Step(c, a, e), Step(c, b, e), events[1..], now, to);
          assert WithoutExpiry(events)[1..] == WithoutExpiry(events[1..]);
        case Expire(k, now) =>
          SameLevelsAfterExpiry(c, a, b, k, now);
          ExpiryChangesNothing(c, Step(c, a, e), b, events[1..], now, to);
          assert WithoutExpiry(events) == WithoutExpiry(events[1..]);
      }
    }
  }

  // --- Why the clock must not go back ---

  const ONE_A_MINUTE := Config(1, 1, 1)
  const SOMEONE := Key(SyncActor, "someone")

  /**
   * Two requests at the same time by the clock are both admitted, if a third one in between sees an
   * earlier time: the second forward step gains the bucket a token, though no time has passed.
   */
  lemma ClockStepsBack()
    ensures var events := [Request([SOMEONE], 60000), Request([SOMEONE], 0), Request([SOMEONE], 60000)];
            && Admitted(ONE_A_MINUTE, map[], events, SOMEONE) == 2 > 1
            && Forward(events, 60000, 60000) == 60000
            && Capacity(ONE_A_MINUTE, SOMEONE) + Gain(Capacity(ONE_A_MINUTE, SOMEONE), 60000) == 2.0
  {
    var one, zero := Request([SOMEONE], 60000), Request([SOMEONE], 0);
    var c := ONE_A_MINUTE;
    var a := map[SOMEONE := Entry(0.0, 60000)];
    var b := map[SOMEONE := Entry(0.0, 0)];
    SingleRequest(c, map[], 60000);
    SingleRequest(c, a, 0);
    SingleRequest(c, b, 60000);
    GainOfWindow(1.0);
    assert Step(c, map[], one) == a && Step(c, a, zero) == b;
    assert [one, zero, one][1..] == [zero, one] && [zero, one][1..] == [one] && [one][1..] == [];
    assert Admitted(c, b, [one], SOMEONE) == 1;
    assert Forward([one], 0, 60000) == 60000 + Forward([], 60000, 60000);
    assert Forward([zero, one], 60000, 60000) == 0 + Forward([one], 0, 60000);
    assert Admitted(c, a, [zero, one], SOMEONE) == 1;
  }

  lemma SingleRequest(c: Config, entries: Entries, now: int)
    requires IsConfig(c)
    ensures var (after, decision) := Consume(c, entries, [SOMEONE], now);
            var level := Level(c, entries, SOMEONE, now);
            && (decision.Allowed? <==> COST <= level)
            && after == entries[SOMEONE := Entry(level - (if decision.Allowed? then COST else 0.0), now)]
  {
    assert [SOMEONE][..0] == [] && [SOMEONE][0] == SOMEONE;
    assert Charged(c, entries, [], now, COST) == entries == Charged(c, entries, [], now, 0.0);
  }
}
