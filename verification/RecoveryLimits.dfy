/** Where recovery does not get to, and how a session gets stuck: inputs that show it, and what follows. */
module RecoveryLimits {
  import opened Messages
  import opened Contracts
  import opened CursorStorage
  import opened TimelineSpec
  import opened TimelineRuns
  import opened TimelineCoverage
  import opened GapBuffer
  import opened RecoverySpec
  import opened RecoveryRuns
  import opened RecoveryExits
  import opened RecoveryLives
  import opened RecoveryOutcomes

  // --- A cursor beyond the watermark ---

  ghost predicate StillStuck(x: Setting, i: int, s: Recovery) {
    OnTrack(x, i, s) && Stuck(s)
  }

  /** Once stuck, every recovery fails in its first round, and leaves the session stuck. */
  lemma StuckStays(x: Setting, i: int, s: Recovery, n: nat)
    requires HonestSetting(x) && StillStuck(x, i, s) && n > 0
    ensures var (next, exit) := After(Begin(s), x.env, i, n);
            && exit.Failed?
            && StillStuck(x, i + 1, Conclude(next, exit.failure).0) && Conclude(next, exit.failure).0.phase != Ready
  {
    TurnIsGood(x, i, Begin(s));
    StuckTurnFails(x, i, Begin(s));
  }

  /** `next` is what one more failed recovery leaves behind, and what arrives after it. */
  ghost predicate TriedAgain(x: Setting, i: int, s: Recovery, next: Recovery, n: nat, inputs: seq<Input>) {
    && Located(s) && After(Begin(s), x.env, i, n).1.Failed?
    && var failed := Conclude(After(Begin(s), x.env, i, n).0, After(Begin(s), x.env, i, n).1.failure).0;
    && Located(failed) && HonestArrivals(x.target, x.logs(i + 1), failed.view.historyBefore, inputs)
    && next == Await(failed, inputs, false)
  }

  lemma ArrivalsKeepStuck(x: Setting, i: int, s: Recovery, inputs: seq<Input>)
    requires HonestSetting(x) && StillStuck(x, i + 1, s) && s.phase != Ready
    requires HonestArrivals(x.target, x.logs(i + 1), s.view.historyBefore, inputs)
    ensures var next := Await(s, inputs, false); StillStuck(x, i + 1, next) && next.phase != Ready
  {
    AwaitTracks(x, i, s, x.logs(i + 1), inputs, false);
  }

  lemma StuckAgain(x: Setting, i: int, s: Recovery, next: Recovery, n: nat, inputs: seq<Input>)
    requires HonestSetting(x) && StillStuck(x, i, s) && TriedAgain(x, i, s, next, n, inputs)
    ensures StillStuck(x, i + 1, next) && next.phase != Ready
  {
    assert n > 0;
    StuckStays(x, i, s, n);
    ArrivalsKeepStuck(x, i, Conclude(After(Begin(s), x.env, i, n).0, After(Begin(s), x.env, i, n).1.failure).0, inputs);
  }

  /** Each attempt follows on what the one before left behind, and on what arrived since. */
  ghost predicate Attempts(x: Setting, i: int, attempts: seq<Recovery>, between: seq<seq<Input>>, n: nat, k: nat) {
    && k < |attempts| && k <= |between|
    && forall j :: 0 <= j < k ==> TriedAgain(x, i + j, attempts[j], attempts[j + 1], n, between[j])
  }

  lemma AttemptStaysStuck(x: Setting, i: int, attempts: seq<Recovery>, between: seq<seq<Input>>, n: nat, k: nat, j: nat)
    requires HonestSetting(x) && Attempts(x, i, attempts, between, n, k) && j < k && StillStuck(x, i + j, attempts[j])
    ensures StillStuck(x, i + j + 1, attempts[j + 1]) && attempts[j + 1].phase != Ready
  {
    assert TriedAgain(x, i + j, attempts[j], attempts[j + 1], n, between[j]);
    StuckAgain(x, i + j, attempts[j], attempts[j + 1], n, between[j]);
  }

  /** However often it is tried, and whatever arrives in between, a stuck session does not get ready again. */
  lemma {:induction false} StuckForGood(x: Setting, i: int, attempts: seq<Recovery>, between: seq<seq<Input>>,
                                        n: nat, k: nat, j: nat)
    requires HonestSetting(x) && Attempts(x, i, attempts, between, n, k) && StillStuck(x, i, attempts[0]) && 0 < j <= k
    ensures StillStuck(x, i + j, attempts[j]) && attempts[j].phase != Ready
    decreases j
  {
    if j > 1 {
      StuckForGood(x, i, attempts, between, n, k, j - 1);
    }
    AttemptStaysStuck(x, i, attempts, between, n, k, j - 1);
  }

  /** A session as it is built from what is stored. */
  function Reloaded(target: ClientTarget, c: StoredCursor): Recovery {
    Begin(Recovery(Fresh(target).(cursor := Some(c.deliverySyncCursor)), Idle, c.throughSequence, Some(Readable(c)),
                   false, 0, 0, 0))
  }

  /**
   * A new session from what a stuck one had saved is not stuck, and can recover: what is saved is never
   * beyond its watermark.
   */
  lemma ReloadingGetsUnstuck(x: Setting, i: int, s: Recovery)
    requires HonestSetting(x) && OnTrack(x, i, s) && s.stored.Some?
    ensures var c := s.stored.value.cursor;
            var y := x.(restored := Some(c.deliverySyncCursor));
            0 <= c.deliverySyncCursor <= s.view.cursor.value && AtWork(y, i, Reloaded(x.target, c))
  {
    var c := s.stored.value.cursor;
    var y := x.(restored := Some(c.deliverySyncCursor));
    assert LogAt(x, i);
    FreshTracks(x.target, x.logs(i), Some(c.deliverySyncCursor));
    SameSurroundings(x, Some(c.deliverySyncCursor));
  }

  /** The surroundings are as honest to a session restored from elsewhere. */
  lemma SameSurroundings(x: Setting, restored: Option<Sequence>)
    requires HonestSetting(x)
    ensures HonestSetting(x.(restored := restored))
  {
    var y := x.(restored := restored);
    forall i ensures LogAt(y, i) {
      assert LogAt(x, i);
    }
    forall i, after, through, low ensures HonestAt(y, i, after, through, low) {
      assert HonestAt(x, i, after, through, low);
    }
  }

  // --- Inputs ---

  const CHANNEL: ClientTarget := Channel("c")

  /** A different id for each place. */
  function IdAt(s: nat): MessageId {
    MessageId(seq(s, _ => 'm'))
  }

  /** A stream of `n` messages. */
  function Stored(n: nat): Log {
    seq(n, k requires 0 <= k < n => IdAt(k + 1))
  }

  lemma StoredIsDistinct(n: nat)
    ensures Distinct(Stored(n)) && |Stored(n)| == n
    ensures forall s :: 1 <= s <= n ==> LogHas(Stored(n), s, IdAt(s))
  {
    forall i, j | 0 <= i < j < n ensures Stored(n)[i] != Stored(n)[j] {
      assert |IdAt(i + 1).text| != |IdAt(j + 1).text|;
    }
  }

  function MessageAt(s: nat): PublicMessage {
    PublicMessage(IdAt(s), CanonicalStreamId(CHANNEL), s, "someone", CHANNEL, 0, None, Text("text", None))
  }

  function MessagesUpTo(after: Sequence, T: Sequence): (ms: seq<PublicMessage>)
    requires 0 <= after <= T
    ensures |ms| == T - after && forall k :: 0 <= k < |ms| ==> ms[k] == MessageAt(after + 1 + k)
  {
    seq(T - after, k requires 0 <= k < T - after => MessageAt(after + 1 + k))
  }

  /** Everything from the cursor to the watermark in one page. */
  function WholePage(after: Sequence, T: Sequence): SyncResponse
    requires 0 <= after <= T
  {
    SyncResponse(CanonicalStreamId(CHANNEL), after, T, MessagesUpTo(after, T), T, false)
  }

  function Quietly(reply: Reply<SyncResponse>): Round {
    Round(reply, [], false, [], false)
  }

  const NO_PAGE := Quietly(Refused(TransportError(InvalidCursorCode, false, None)))
  const FIVE_MS := Refused(TransportError(RateLimitedCode, false, Some(5)))

  /** Three messages are stored; every request that can be answered is. */
  function AnswerAll(i: int, after: Sequence, through: Option<Sequence>, low: Option<Sequence>): Round {
    if Askable(after, through, 3) then Quietly(Answered(WholePage(after, Watermark(through, 3)), 0)) else NO_PAGE
  }

  /** A session that takes up a saved cursor and its watermark. */
  function Resumed(cursor: Sequence, through: Option<Sequence>): Recovery {
    Reloaded(CHANNEL, StoredCursor(cursor, through, IdleState))
  }

  lemma WholePageIsHonest(n: nat, after: Sequence, T: Sequence, through: Option<Sequence>)
    requires 0 <= after <= T <= n && T - after <= MAX_STREAM_MESSAGES_PAGE_LIMIT && T == Watermark(through, n)
    ensures HonestPage(CHANNEL, Stored(n), WholePage(after, T), after, through)
  {
    var ms := MessagesUpTo(after, T);
    StoredIsDistinct(n);
    forall k | 0 <= k < |ms| ensures HonestTo(CHANNEL, Stored(n), ms[k]) {
      assert ms[k] == MessageAt(after + 1 + k) && LogHas(Stored(n), after + 1 + k, IdAt(after + 1 + k));
    }
    assert ValidPageMessages(ms, CanonicalStreamId(CHANNEL));
  }

  lemma ResumedIsOnTrack(x: Setting, i: int, cursor: Sequence, through: Option<Sequence>)
    requires HonestSetting(x) && x.target == CHANNEL && x.restored == Some(cursor)
    requires IsStoredCursor(StoredCursor(cursor, through, IdleState))
    ensures AtWork(x, i, Resumed(cursor, through))
  {
    assert LogAt(x, i);
    FreshTracks(CHANNEL, x.logs(i), Some(cursor));
  }

  /**
   * Resumed under a stored watermark of 2 while 3 messages are stored: recovery ends ready, with one
   * message unseen.
   */
  lemma OlderWatermarkStopsShort() returns (x: Setting, n: nat)
    ensures QuietTrack(x, 3, 0, Resumed(1, Some(2)))
    ensures var (final, exit) := After(Resumed(1, Some(2)), x.env, 0, n);
            exit == Finished && Settled(final) && final.view.cursor != Some(3) && |x.logs(0)| == 3
  {
    x := Setting(CHANNEL, AnswerAll, (i: int) => Stored(3), Some(1), 3, 0);
    StoredIsDistinct(3);
    forall i ensures LogAt(x, i) {}
    forall i, after, through, low ensures HonestAt(x, i, after, through, low) && QuietAt(x, 3, i, after, through, low) {
      if Askable(after, through, 3) {
        WholePageIsHonest(3, after, Watermark(through, 3), through);
      }
    }
    ResumedIsOnTrack(x, 0, 1, Some(2));
    n := QuietRecovery(x, 3, 0, Resumed(1, Some(2)));
  }

  /** The next two messages after a place, live. */
  function LivePair(c: nat): seq<Input> {
    [Live(MessageAt(c + 1)), Live(MessageAt(c + 2))]
  }

  lemma OneMoreArrives(log: Log, low: Option<Sequence>, m: PublicMessage, rest: seq<Input>)
    requires HonestTo(CHANNEL, log, m) && HonestArrivals(CHANNEL, log, low, rest)
    ensures var all := [Live(m)] + rest;
            && HonestArrivals(CHANNEL, log, low, all) && LowAfter(low, all) == LowAfter(low, rest)
            && Arrived(all) == {m.sequence} + Arrived(rest)
  {
    var all := [Live(m)] + rest;
    assert all[0] == Live(m) && all[1..] == rest && NextLow(low, all[0]) == low;
  }

  lemma LivePairArrives(low: Option<Sequence>, c: nat)
    ensures HonestArrivals(CHANNEL, Stored(c + 2), low, LivePair(c)) && LowAfter(low, LivePair(c)) == low
    ensures Arrived(LivePair(c)) == {c + 1, c + 2}
  {
    StoredIsDistinct(c + 2);
    OneMoreArrives(Stored(c + 2), low, MessageAt(c + 2), []);
    OneMoreArrives(Stored(c + 2), low, MessageAt(c + 1), [Live(MessageAt(c + 2))]);
    assert [Live(MessageAt(c + 2))] + [] == [Live(MessageAt(c + 2))];
    assert [Live(MessageAt(c + 1))] + [Live(MessageAt(c + 2))] == LivePair(c);
  }

  /** A request from `cursor` under `through` runs into `first`; all others are refused. */
  function FirstOnly(cursor: Sequence, through: Option<Sequence>, first: Round): Environment {
    (i: int, after: Sequence, t: Option<Sequence>, low: Option<Sequence>) =>
      if i == 0 && after == cursor && t == through then first else NO_PAGE
  }

  /** One more message is stored after the first request is answered, or none. */
  function Growing(small: nat, large: nat): int -> Log {
    (i: int) => if i <= 0 then Stored(small) else Stored(large)
  }

  /** A session that takes up `cursor` and `through`, and first runs into this round. */
  function Scene(cursor: Sequence, through: Option<Sequence>, first: Round, small: nat, large: nat): Setting {
    Setting(CHANNEL, FirstOnly(cursor, through, first), Growing(small, large), Some(cursor), large, 1)
  }

  ghost predicate HonestFirst(cursor: Sequence, through: Option<Sequence>, first: Round, small: nat, large: nat) {
    forall low :: HonestRound(CHANNEL, Stored(small), Stored(large), first, cursor, through, low)
  }

  lemma SceneIsHonest(cursor: Sequence, through: Option<Sequence>, first: Round, small: nat, large: nat)
    requires small <= large <= MAX_SAFE_INTEGER
    requires HonestFirst(cursor, through, first, small, large)
    ensures HonestSetting(Scene(cursor, through, first, small, large))
  {
    var x := Scene(cursor, through, first, small, large);
    StoredIsDistinct(small);
    StoredIsDistinct(large);
    assert Stored(small) <= Stored(large);
    forall i ensures LogAt(x, i) {}
    forall i, after, t, low ensures HonestAt(x, i, after, t, low) {
      if i == 0 && after == cursor && t == through {
        assert x.env(i, after, t, low) == first && x.logs(i) == Stored(small) && x.logs(i + 1) == Stored(large);
        assert HonestRound(CHANNEL, Stored(small), Stored(large), first, cursor, through, low);
      } else {
        assert x.env(i, after, t, low) == NO_PAGE;
      }
    }
  }

  /** How the first turn of a session goes. */
  ghost predicate FirstTurn(x: Setting, s: Recovery, round: Round, exit: Exit, stuck: bool) {
    && AtWork(x, 0, s) && RoundAt(x.env, 0, s) == round
    && Iterate(s, round).1 == exit && OnTrack(x, 1, Iterate(s, round).0) && Stuck(Iterate(s, round).0) == stuck
  }

  /** The first turn ends as its round and the state before it say. */
  lemma SceneExits(cursor: Sequence, through: Option<Sequence>, first: Round, small: nat, large: nat)
    requires small <= large <= MAX_SAFE_INTEGER && IsStoredCursor(StoredCursor(cursor, through, IdleState))
    requires HonestFirst(cursor, through, first, small, large)
    ensures var s := Resumed(cursor, through);
            FirstTurn(Scene(cursor, through, first, small, large), s, first, ExitOf(s, first), SticksAfter(s, first))
  {
    var x, s := Scene(cursor, through, first, small, large), Resumed(cursor, through);
    SceneIsHonest(cursor, through, first, small, large);
    ResumedIsOnTrack(x, 0, cursor, through);
    TurnExits(x, 0, s);
    TurnIsGood(x, 0, s);
  }

  /** A round in which the next two messages come live, while the request is under way or in the pause after it. */
  function PairRound(c: nat, reply: Reply<SyncResponse>, inPause: bool): Round {
    Round(reply, if inPause then [] else LivePair(c), false, if inPause then LivePair(c) else [], false)
  }

  lemma PairRoundIsHonest(c: nat, through: Option<Sequence>, reply: Reply<SyncResponse>, inPause: bool, small: nat)
    requires reply.Answered? ==> HonestPage(CHANNEL, Stored(small), reply.response, c, through)
    ensures HonestFirst(c, through, PairRound(c, reply, inPause), small, c + 2)
  {
    var round, large := PairRound(c, reply, inPause), c + 2;
    forall low ensures HonestRound(CHANNEL, Stored(small), Stored(large), round, c, through, low) {
      LivePairArrives(low, c);
      assert LowAfter(low, []) == low && HonestArrivals(CHANNEL, Stored(large), low, []);
    }
  }

  lemma PairPasses(c: nat)
    ensures Passes(c, {}, Arrived(LivePair(c)), c + 1) && Passes(c, {}, Arrived([]) + Arrived(LivePair(c)), c + 1)
    ensures !Passes(c, {}, Arrived([]), c + 1)
  {
    LivePairArrives(None, c);
    assert Arrived([]) == {} && {} + Arrived(LivePair(c)) == Arrived(LivePair(c));
  }

  /** What becomes of a session under the watermark `c + 1` is told from the state before and the round. */
  lemma PairExits(c: nat, s: Recovery, page: SyncResponse)
    requires s.view.cursor == Some(c) && s.view.buffered == {} && page.throughSequence == c + 1
    ensures var round := PairRound(c, Answered(page, 0), false);
            ExitOf(s, round) == Failed(Protocol(SyncCursorMismatch)) && SticksAfter(s, round)
    ensures s.through == Some(c + 1) ==>
              && ExitOf(s, PairRound(c, FIVE_MS, false)) == Failed(BadValue)
              && SticksAfter(s, PairRound(c, FIVE_MS, false))
              && ExitOf(s, PairRound(c, FIVE_MS, true)) == Going && SticksAfter(s, PairRound(c, FIVE_MS, true))
  {
    LivePairArrives(None, c);
    PairPasses(c);
    PassesMore(c, {}, Arrived(LivePair(c)), Arrived([]), c + 1);
  }

  /** The next two messages come live while the first page is under way: a mismatch, and the session is stuck. */
  lemma LiveMessagesGetItStuck(c: nat) returns (x: Setting)
    requires c + 2 <= MAX_SAFE_INTEGER
    ensures FirstTurn(x, Resumed(c, None), PairRound(c, Answered(WholePage(c, c + 1), 0), false),
                      Failed(Protocol(SyncCursorMismatch)), true)
  {
    var reply := Answered(WholePage(c, c + 1), 0);
    x := Scene(c, None, PairRound(c, reply, false), c + 1, c + 2);
    WholePageIsHonest(c + 1, c, c + 1, None);
    PairRoundIsHonest(c, None, reply, false, c + 1);
    PairExits(c, Resumed(c, None), WholePage(c, c + 1));
    SceneExits(c, None, PairRound(c, reply, false), c + 1, c + 2);
  }

  /** The same while a request is being refused for its rate: the cursor cannot be saved, and the session is stuck. */
  lemma RateLimitGetsItStuck(c: nat) returns (x: Setting)
    requires c + 2 <= MAX_SAFE_INTEGER
    ensures FirstTurn(x, Resumed(c, Some(c + 1)), PairRound(c, FIVE_MS, false), Failed(BadValue), true)
  {
    x := Scene(c, Some(c + 1), PairRound(c, FIVE_MS, false), c + 2, c + 2);
    PairRoundIsHonest(c, Some(c + 1), FIVE_MS, false, c + 2);
    PairExits(c, Resumed(c, Some(c + 1)), WholePage(c, c + 1));
    SceneExits(c, Some(c + 1), PairRound(c, FIVE_MS, false), c + 2, c + 2);
  }

  /** And during the delay that follows: nothing has failed yet, and the session is stuck. */
  lemma DelayGetsItStuck(c: nat) returns (x: Setting)
    requires c + 2 <= MAX_SAFE_INTEGER
    ensures FirstTurn(x, Resumed(c, Some(c + 1)), PairRound(c, FIVE_MS, true), Going, true)
  {
    x := Scene(c, Some(c + 1), PairRound(c, FIVE_MS, true), c + 2, c + 2);
    PairRoundIsHonest(c, Some(c + 1), FIVE_MS, true, c + 2);
    PairExits(c, Resumed(c, Some(c + 1)), WholePage(c, c + 1));
    SceneExits(c, Some(c + 1), PairRound(c, FIVE_MS, true), c + 2, c + 2);
  }

  lemma RefusalIsHonest(c: nat, through: Option<Sequence>, e: TransportError, n: nat)
    ensures HonestFirst(c, through, Quietly(Refused(e)), n, n)
  {
    var round := Quietly(Refused(e));
    forall low ensures HonestRound(CHANNEL, Stored(n), Stored(n), round, c, through, low) {
      assert HonestArrivals(CHANNEL, Stored(n), low, []);
    }
  }

  const UNAVAILABLE := TransportError(UnavailableCode, true, None)

  /**
   * The same while no recovery runs: before the first one, or after one that failed for another reason
   * and left nothing wrong behind.
   */
  lemma BetweenAttemptsGetsItStuck(c: nat) returns (x: Setting)
    requires c + 2 <= MAX_SAFE_INTEGER
    ensures FirstTurn(x, Resumed(c, Some(c + 1)), Quietly(Refused(UNAVAILABLE)), Failed(Transport(UNAVAILABLE)), false)
    ensures var failed := TurnOf(x.env, 0, Resumed(c, Some(c + 1)));
            && HonestArrivals(CHANNEL, x.logs(1), failed.view.historyBefore, LivePair(c))
            && failed.phase == StreamUnavailable && StillStuck(x, 1, Await(failed, LivePair(c), false))
    ensures HonestArrivals(CHANNEL, x.logs(0), None, LivePair(c))
    ensures StillStuck(x, 0, Await(Resumed(c, Some(c + 1)), LivePair(c), false))
  {
    var s, round := Resumed(c, Some(c + 1)), Quietly(Refused(UNAVAILABLE));
    x := Scene(c, Some(c + 1), round, c + 2, c + 2);
    RefusalIsHonest(c, Some(c + 1), UNAVAILABLE, c + 2);
    PairPasses(c);
    SceneExits(c, Some(c + 1), round, c + 2, c + 2);
    var failed := TurnOf(x.env, 0, s);
    LivePairArrives(None, c);
    assert failed.view == s.view && failed.through == s.through;
    WaitSticksExactly(x, 0, s, LivePair(c));
    WaitSticksExactly(x, 1, failed, LivePair(c));
  }
}
