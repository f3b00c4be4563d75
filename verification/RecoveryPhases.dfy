/** The phase in which an attempt ends, what a turn saves, and what a batch counts: told from the rounds alone. */
module RecoveryPhases {
  import opened Messages
  import opened Contracts
  import opened CursorStorage
  import opened TimelineSpec
  import opened TimelineRuns
  import opened TimelineCoverage
  import opened TimelineArrivals
  import opened GapBuffer
  import opened RecoverySpec
  import opened RecoveryRuns
  import opened RecoveryExits
  import opened RecoveryOutcomes

  // --- How an attempt that failed ends ---

  /**
   * A cancelled attempt ends cancelled. Otherwise the refusal decides: two codes have phases of their
   * own, anything else can be tried again if it says so, and all the rest is a protocol failure. That
   * alone is passed on to the caller.
   */
  predicate EndsAs(cancelled: bool, refusal: Option<TransportError>, phase: Phase, threw: bool) {
    var code := if refusal.Some? then refusal.value.code else OtherCode;
    && (phase == Cancelled <==> cancelled)
    && (phase == StreamUnavailable <==> !cancelled && code == UnavailableCode)
    && (phase == InvalidCursor <==> !cancelled && code == InvalidCursorCode)
    && (phase == RetryableFailure <==>
        !cancelled && refusal.Some? && refusal.value.retryable && code != UnavailableCode && code != InvalidCursorCode)
    && (phase == ProtocolFailure <==>
        !cancelled && code != UnavailableCode && code != InvalidCursorCode
        && (refusal.Some? ==> !refusal.value.retryable))
    && (threw <==> phase == ProtocolFailure)
  }

  /** What a round refuses for good: anything but a rate limit, which is waited for or makes no sense. */
  function Refusal(round: Round): Option<TransportError> {
    if round.reply.Refused? && round.reply.error.code != RateLimitedCode then Some(round.reply.error) else None
  }

  /** The state in which the last turn of a recovery begins, and the round it runs into. */
  function LastTurn(s: Recovery, env: Environment, i: int, n: nat): (Recovery, Round)
    requires Located(s) && After(s, env, i, n).1 != Going
    decreases n
  {
    AfterTurn(s, env, i, n);
    var (next, exit) := Iterate(s, RoundAt(env, i, s));
    if exit == Going then LastTurn(next, env, i + 1, n - 1) else (s, RoundAt(env, i, s))
  }

  lemma {:induction false} EndsWithLastTurn(s: Recovery, env: Environment, i: int, n: nat)
    requires Located(s) && After(s, env, i, n).1 != Going
    ensures var (last, round) := LastTurn(s, env, i, n);
            Located(last) && After(s, env, i, n) == Iterate(last, round)
    decreases n
  {
    AfterTurn(s, env, i, n);
    if Iterate(s, RoundAt(env, i, s)).1 == Going {
      EndsWithLastTurn(Iterate(s, RoundAt(env, i, s)).0, env, i + 1, n - 1);
    }
  }

  lemma FailedTurnEndsAs(s: Recovery, round: Round)
    requires Located(s) && Iterate(s, round).1.Failed?
    ensures var (next, exit) := Iterate(s, round);
            var (concluded, threw) := Conclude(next, exit.failure);
            EndsAs(next.aborted, Refusal(round), concluded.phase, threw)
  {
  }

  /** A recovery that fails ends as its last round says. */
  lemma FailedRecoveryEndsAs(s: Recovery, env: Environment, i: int, n: nat)
    requires Located(s) && After(s, env, i, n).1.Failed?
    ensures var (final, exit) := After(s, env, i, n);
            var (concluded, threw) := Conclude(final, exit.failure);
            EndsAs(final.aborted, Refusal(LastTurn(s, env, i, n).1), concluded.phase, threw)
  {
    EndsWithLastTurn(s, env, i, n);
    var (last, round) := LastTurn(s, env, i, n);
    FailedTurnEndsAs(last, round);
  }

  /** A first load that fails ends as its reply says. */
  lemma FailedLoadEndsAs(s: Recovery, reply: Reply<LatestResponse>, during: seq<Input>, cancelled: bool)
    requires Valid(s.view) && FirstLoad(s, reply, during, cancelled).1.Failed?
    ensures var (final, exit) := FirstLoad(s, reply, during, cancelled);
            var (concluded, threw) := Conclude(final, exit.failure);
            && (final.aborted <==> cancelled)
            && EndsAs(cancelled, if reply.Refused? then Some(reply.error) else None, concluded.phase, threw)
  {
  }

  /** What an attempt is refused with in the end: by the first load, or in the last round of the recovery. */
  function LastRefusal(s: Recovery, latest: Reply<LatestResponse>, env: Environment, n: nat): Option<TransportError>
    requires Valid(s.view) && (s.view.cursor.Some? ==> After(Begin(s), env, 0, n).1 != Going)
  {
    if s.view.cursor.Some? then Refusal(LastTurn(Begin(s), env, 0, n).1)
    else if latest.Refused? then Some(latest.error)
    else None
  }

  /** An attempt ends ready, or as the cancellation or the refusal that it met says. */
  lemma AttemptEndsAs(
    s: Recovery, latest: Reply<LatestResponse>, during: seq<Input>, cancelled: bool, env: Environment, n: nat)
    requires Valid(s.view) && (s.view.cursor.Some? ==> After(Begin(s), env, 0, n).1 != Going)
    ensures var (final, exit) :=
              if s.view.cursor.None? then FirstLoad(s, latest, during, cancelled) else After(Begin(s), env, 0, n);
            if exit.Failed? then
              var (concluded, threw) := Conclude(final, exit.failure);
              EndsAs(final.aborted, LastRefusal(s, latest, env, n), concluded.phase, threw)
              && concluded.aborted == final.aborted
            else final.phase == Ready
  {
    if s.view.cursor.None? {
      if FirstLoad(s, latest, during, cancelled).1.Failed? {
        FailedLoadEndsAs(s, latest, during, cancelled);
      }
    } else {
      EndsWithLastTurn(Begin(s), env, 0, n);
      if After(Begin(s), env, 0, n).1.Failed? {
        FailedRecoveryEndsAs(Begin(s), env, 0, n);
      }
    }
  }

  /** One of the rounds that the loop runs into cancels it. */
  predicate IsCancelled(s: Recovery, env: Environment, i: int, n: nat)
    requires Located(s)
    decreases n
  {
    n > 0
    && var round := RoundAt(env, i, s);
       IterateKeepsLocated(s, round);
       var (next, exit) := Iterate(s, round);
       round.cancelledDuring || round.cancelledInPause || (exit == Going && IsCancelled(next, env, i + 1, n - 1))
  }

  lemma {:induction false} OnlyRoundsCancel(s: Recovery, env: Environment, i: int, n: nat)
    requires Located(s) && !s.aborted && !IsCancelled(s, env, i, n)
    ensures !After(s, env, i, n).0.aborted
    decreases n
  {
    if n > 0 {
      IterateKeepsLocated(s, RoundAt(env, i, s));
      if Iterate(s, RoundAt(env, i, s)).1 == Going {
        OnlyRoundsCancel(Iterate(s, RoundAt(env, i, s)).0, env, i + 1, n - 1);
      }
    }
  }

  /** Only its own rounds cancel a recovery: what was cancelled before does not count, nor does it end as cancelled. */
  lemma EarlierCancellationIsForgotten(s: Recovery, env: Environment, n: nat)
    requires Located(s) && !IsCancelled(Begin(s), env, 0, n)
    ensures var (final, exit) := After(Begin(s), env, 0, n);
            !final.aborted && (exit.Failed? ==> Conclude(final, exit.failure).0.phase != Cancelled)
  {
    OnlyRoundsCancel(Begin(s), env, 0, n);
  }

  /** When a turn that fails has been cancelled: during the request, or in a wait that it came to. */
  lemma TurnCancelled(x: Setting, i: int, s: Recovery)
    requires HonestSetting(x) && OnTrack(x, i, s) && !s.aborted && !Stuck(s)
    requires Iterate(s, RoundAt(x.env, i, s)).1.Failed?
    ensures var round := RoundAt(x.env, i, s);
            Iterate(s, round).0.aborted <==>
            || round.cancelledDuring
            || (round.cancelledInPause
                && match round.reply
                   case Answered(r, raw) =>
                     IsByteLength(raw) && !MovesCursor(s, round) && r.hasMoreAfter && FillsBatch(s, r, raw)
                   case Refused(e) =>
                     e.code == RateLimitedCode && IsDelay(e.retryAfterMs) && !PassesWatermark(s, Arrived(round.during)))
  {
    TurnFailsExactly(x, i, s);
  }

  // --- What the numbers are ---

  /** A page that changes the watermark is not applied; one that does not fit fails as the timeline says. */
  lemma PageFailsExactly(s: Recovery, round: Round)
    requires Located(s) && !s.aborted && round.reply.Answered? && !round.cancelledDuring
    requires IsByteLength(round.reply.rawUtf8ByteLength) && Valid(Run(s.view, round.during))
    ensures var (next, exit) := Iterate(s, round);
            var r, w := round.reply.response, Run(s.view, round.during);
            if s.through.Some? && s.through != Some(r.throughSequence) then
              && exit == Failed(Protocol(SyncCursorMismatch))
              && next.view == w && next.through == s.through && next.stored == s.stored
            else if ApplySync(w, r).outcome != Ok then
              && exit == Failed(Protocol(ApplySync(w, r).outcome.error))
              && next.view == ApplySync(w, r).view && next.through == Some(r.throughSequence) && next.stored == s.stored
            else !(exit.Failed? && exit.failure.Protocol?)
  {
  }

  /**
   * A rate limit without a delay of whole, positive, safe milliseconds makes no sense; nor does a page
   * without a size.
   */
  lemma NumbersAreChecked(s: Recovery, round: Round)
    requires Located(s) && !s.aborted && !round.cancelledDuring
    ensures round.reply.Refused? && round.reply.error.code == RateLimitedCode ==>
              var ms := round.reply.error.retryAfterMs;
              (Iterate(s, round).1 == Failed(Protocol(SyncNoProgress)) <==>
                 ms == None || ms.value < 1 || ms.value >= 0x20_0000_0000_0000)
    ensures round.reply.Answered? ==>
              var raw := round.reply.rawUtf8ByteLength;
              raw < 0 || raw >= 0x20_0000_0000_0000 ==> Iterate(s, round).1 == Failed(BadValue)
  {
  }

  // --- What a turn counts ---

  /**
   * Pages, messages and bytes of a batch are counted up, and from zero again after every pause and
   * every final page.
   */
  lemma TurnCounts(s: Recovery, round: Round)
    requires Located(s) && Iterate(s, round).1 == Going
    ensures var next := Iterate(s, round).0;
            (next.batchPages, next.batchMessages, next.batchBytes) ==
            match round.reply
            case Refused(_) => (s.batchPages, s.batchMessages, s.batchBytes)
            case Answered(r, raw) =>
              if r.hasMoreAfter && !FillsBatch(s, r, raw)
              then (s.batchPages + 1, s.batchMessages + |r.messages|, s.batchBytes + raw) else (0, 0, 0)
    ensures (Begin(s).batchPages, Begin(s).batchMessages, Begin(s).batchBytes) == (0, 0, 0)
  {
  }

  // --- What a turn saves ---

  function Kept(cursor: Sequence, through: Option<Sequence>, pending: bool): Option<Item> {
    Some(Readable(StoredCursor(cursor, through, if pending then PendingState else IdleState)))
  }

  /** What is in the storage after a turn, if it is neither cancelled nor stuck. */
  ghost predicate SavesRight(s: Recovery, round: Round, next: Recovery)
    requires s.view.cursor.Some? && next.view.cursor.Some?
  {
    match round.reply
    case Refused(e) =>
      if e.code == RateLimitedCode && IsDelay(e.retryAfterMs) && !PassesWatermark(s, Arrived(round.during)) then
        exists rest, c :: MovedTo(s.view.cursor.value, s.view.buffered, Arrived(round.during), rest, c)
                          && next.stored == Kept(c, s.through, true)
      else next.stored == s.stored
    case Answered(r, raw) =>
      if round.cancelledDuring || !IsByteLength(raw) || MovesCursor(s, round) then next.stored == s.stored
      else if r.hasMoreAfter then
        next.stored == Kept(r.nextAfterSequence, Some(r.throughSequence), FillsBatch(s, r, raw))
      else next.stored == Kept(next.view.cursor.value, None, false)
  }

  lemma RateLimitSaves(x: Setting, i: int, s: Recovery, w: Recovery, e: TransportError, round: Round)
    requires HonestSetting(x) && OnTrack(x, i, s) && !Stuck(s) && Waited(x, i, s, w, round) && w.stored == s.stored
    requires e.code == RateLimitedCode && round.reply == Refused(e)
    ensures var next := AfterRateLimit(w, e, round).0;
            if IsDelay(e.retryAfterMs) && !PassesWatermark(s, Arrived(round.during))
            then next.stored == Kept(w.view.cursor.value, s.through, true) else next.stored == s.stored
  {
    if s.through.Some? {
      WaitPasses(s.view, w.view, Arrived(round.during), x.logs(i + 1), x.restored, s.through.value);
    }
    SavedUnlessStuck(x, i + 1, w);
  }

  lemma MorePagesSave(x: Setting, i: int, taken: Recovery, round: Round)
    requires OnTrack(x, i, taken) && !Stuck(taken) && taken.phase == Recovering
    ensures var next := AfterPage(taken, round).0;
            next.stored == Kept(taken.view.cursor.value, taken.through, BatchIsFull(taken))
  {
    SavedUnlessStuck(x, i, taken);
  }

  lemma LastPageSaves(x: Setting, i: int, taken: Recovery)
    requires OnTrack(x, i, taken) && taken.phase == Recovering
    ensures var next := AfterFinalPage(taken).0;
            next.view == taken.view && next.stored == Kept(taken.view.cursor.value, None, false)
  {
  }

  lemma UntakenPageSaves(x: Setting, i: int, s: Recovery, w: Recovery, r: SyncResponse, raw: int, round: Round)
    requires HonestSetting(x) && OnTrack(x, i, s) && Waited(x, i, s, w, round)
    requires HonestPage(x.target, x.logs(i), r, s.view.cursor.value, s.through)
    requires round.cancelledDuring || !IsByteLength(raw) || MovesCursor(s, round)
    ensures AfterAnswer(w, r, raw, round).0.stored == w.stored
  {
    if !round.cancelledDuring && IsByteLength(raw) {
      WaitMoves(s.view, w.view, Arrived(round.during), x.logs(i + 1), x.restored);
      assert TakePage(w, r, raw).1.Failed? by {
        TakePageTracks(x, i, w, r, raw, s.through);
      }
    }
  }

  lemma TakenPageSaves(x: Setting, i: int, s: Recovery, w: Recovery, r: SyncResponse, raw: int, round: Round)
    requires HonestSetting(x) && OnTrack(x, i, s) && Waited(x, i, s, w, round) && w.phase == Recovering
    requires HonestPage(x.target, x.logs(i), r, s.view.cursor.value, s.through)
    requires !round.cancelledDuring && IsByteLength(raw) && !MovesCursor(s, round)
    ensures var next := AfterAnswer(w, r, raw, round).0;
            if r.hasMoreAfter then
              next.stored == Kept(r.nextAfterSequence, Some(r.throughSequence), FillsBatch(s, r, raw))
            else next.view.cursor.Some? && next.stored == Kept(next.view.cursor.value, None, false)
  {
    WaitMoves(s.view, w.view, Arrived(round.during), x.logs(i + 1), x.restored);
    TakePageTracks(x, i, w, r, raw, s.through);
    var taken := TakePage(w, r, raw).0;
    if r.hasMoreAfter {
      assert AfterAnswer(w, r, raw, round) == AfterPage(taken, round);
      MorePagesSave(x, i + 1, taken, round);
    } else {
      assert AfterAnswer(w, r, raw, round) == AfterFinalPage(taken);
      LastPageSaves(x, i + 1, taken);
    }
  }

  /** Every turn saves the cursor under the watermark it still has, and whether it waits; or nothing. */
  lemma TurnSaves(x: Setting, i: int, s: Recovery)
    requires AtWork(x, i, s)
    ensures var round := RoundAt(x.env, i, s);
            Iterate(s, round).0.view.cursor.Some? && SavesRight(s, round, Iterate(s, round).0)
  {
    var round := RoundAt(x.env, i, s);
    RoundIsHonest(x, i, s);
    AwaitTracks(x, i, s, x.logs(i), round.during, round.cancelledDuring);
    var w := Await(s, round.during, round.cancelledDuring);
    IterateKeepsLocated(s, round);
    match round.reply {
      case Answered(r, raw) =>
        if round.cancelledDuring || !IsByteLength(raw) || MovesCursor(s, round) {
          UntakenPageSaves(x, i, s, w, r, raw, round);
        } else {
          TakenPageSaves(x, i, s, w, r, raw, round);
        }
      case Refused(e) => if e.code == RateLimitedCode { RateLimitSaves(x, i, s, w, e, round); }
    }
  }

  // --- The first load ---

  /** How the first load goes, from the arrivals meanwhile and the reply. */
  ghost predicate LoadsRight(
    s: Recovery, reply: Reply<LatestResponse>, during: seq<Input>, cancelled: bool, next: Recovery, exit: Exit)
  {
    match reply
    case Refused(e) => exit == Failed(Transport(e)) && WaitsOn(s, during, next)
    case Answered(r, raw) =>
      if cancelled then exit == CANCELLED && WaitsOn(s, during, next)
      else if !IsByteLength(raw) then exit == Failed(BadValue) && WaitsOn(s, during, next)
      else
        && exit == Finished && next.phase == Ready && next.through == None && next.view.cursor.Some?
        && next.stored == Kept(next.view.cursor.value, None, false)
        && exists waiting :: Above(s.view.buffered + Arrived(during), waiting, r.throughSequence)
                             && DrainedTo(waiting, r.throughSequence, next.view.buffered, next.view.cursor.value)
  }

  /** Still without a page: what has arrived waits, and nothing is saved. */
  ghost predicate WaitsOn(s: Recovery, during: seq<Input>, next: Recovery) {
    AwaitsFirstPage(next.view) && next.view.buffered == s.view.buffered + Arrived(during) && next.stored == s.stored
  }

  lemma LatestCursorInLog(v: View, log: Log, r: LatestResponse, waiting: set<Sequence>, rest: set<Sequence>,
                          c: Sequence)
    requires AwaitsFirstPage(v) && FromLog(v.records, log) && LatestContract(r) && AllHonest(v, log, r.messages)
    requires Above(v.buffered, waiting, r.throughSequence) && DrainedTo(waiting, r.throughSequence, rest, c)
    ensures 0 <= c <= |log|
  {
    if r.throughSequence < c {
      assert c in v.buffered && Logged(log, v.records[c]);
    } else if r.messages != [] {
      assert Honest(v, log, r.messages[|r.messages| - 1]);
    }
  }

  /**
   * Against an honest server the first load fails only if it is refused, cancelled or malformed, and keeps
   * then what has arrived; otherwise it is ready, at the end of the unbroken run of page and arrivals.
   */
  lemma FirstLoadEnds(log: Log, s: Recovery, reply: Reply<LatestResponse>, during: seq<Input>, cancelled: bool)
    requires AwaitsFirstPage(s.view) && Distinct(log) && |log| <= MAX_SAFE_INTEGER && FromLog(s.view.records, log)
    requires AllHonestMessages(s.view, log, during)
    requires reply.Answered? ==> var r := reply.response;
               LatestContract(r) && r.streamId == s.view.streamId && AllHonest(s.view, log, r.messages)
    ensures var (next, exit) := FirstLoad(s, reply, during, cancelled);
            LoadsRight(s, reply, during, cancelled, next, exit)
  {
    ArrivalsWait(s.view, log, during);
    var w := Run(s.view, during);
    if reply.Answered? {
      LatestMovesTo(w, log, reply.response);
      var v := ApplyLatest(w, reply.response).view;
      var waiting :| Above(w.buffered, waiting, reply.response.throughSequence)
                     && DrainedTo(waiting, reply.response.throughSequence, v.buffered, v.cursor.value);
      LatestCursorInLog(w, log, reply.response, waiting, v.buffered, v.cursor.value);
    }
  }
}
