/** How a turn of the recovery loop ends and what it leaves behind, told from its round and the state before it. */
module RecoveryExits {
  import opened Messages
  import opened Contracts
  import opened TimelineSpec
  import opened TimelineRuns
  import opened TimelineCoverage
  import opened GapBuffer
  import opened RecoverySpec
  import opened RecoveryRuns

  /** A request from this cursor under this watermark cannot be answered with a page, nor can the cursor be saved. */
  ghost predicate Stuck(s: Recovery) {
    s.through.Some? && s.view.cursor.Some? && s.through.value < s.view.cursor.value
  }

  /** A message right after the cursor arrives while the request is under way. */
  predicate MovesCursor(s: Recovery, round: Round)
    requires s.view.cursor.Some?
  {
    s.view.cursor.value + 1 in Arrived(round.during)
  }

  /** The unbroken run of what is buffered or arrives goes on past the watermark. */
  ghost predicate PassesWatermark(s: Recovery, arrived: set<Sequence>)
    requires s.view.cursor.Some?
  {
    s.through.Some? && Passes(s.view.cursor.value, s.view.buffered, arrived, s.through.value)
  }

  /** With this page a batch is full: it is the tenth, or makes 500 messages, or half a mebibyte. */
  predicate FillsBatch(s: Recovery, r: SyncResponse, raw: int) {
    s.batchPages >= 9 || s.batchMessages + |r.messages| >= 500 || s.batchBytes + raw >= 512 * 1024
  }

  /** How a turn ends: every cause of a failure, and when exactly the loop is done. */
  ghost function ExitOf(s: Recovery, round: Round): Exit
    requires s.view.cursor.Some?
  {
    match round.reply
    case Refused(e) =>
      if e.code != RateLimitedCode then Failed(Transport(e))
      else if !IsDelay(e.retryAfterMs) then Failed(Protocol(SyncNoProgress))
      else if PassesWatermark(s, Arrived(round.during)) then Failed(BadValue)
      else if round.cancelledInPause then CANCELLED
      else Going
    case Answered(r, raw) =>
      if round.cancelledDuring then CANCELLED
      else if !IsByteLength(raw) then Failed(BadValue)
      else if MovesCursor(s, round) then Failed(Protocol(SyncCursorMismatch))
      else if r.hasMoreAfter then
        if FillsBatch(s, r, raw) && round.cancelledInPause then CANCELLED else Going
      else if GapBeyond(s.view.buffered + Arrived(round.during), r.throughSequence) then Going
      else Finished
  }

  /** When a turn leaves the session with its cursor beyond the watermark it keeps. */
  ghost predicate SticksAfter(s: Recovery, round: Round)
    requires s.view.cursor.Some?
  {
    match round.reply
    case Refused(e) =>
      PassesWatermark(s, Arrived(round.during)
                         + (if e.code == RateLimitedCode && IsDelay(e.retryAfterMs) then Arrived(round.pause) else {}))
    case Answered(r, raw) =>
      if round.cancelledDuring || !IsByteLength(raw) then PassesWatermark(s, Arrived(round.during))
      else if MovesCursor(s, round) then
        Passes(s.view.cursor.value, s.view.buffered, Arrived(round.during), r.throughSequence)
      else
        r.hasMoreAfter && FillsBatch(s, r, raw)
        && Passes(r.nextAfterSequence, s.view.buffered + Arrived(round.during), Arrived(round.pause), r.throughSequence)
  }

  lemma PassesMore(c: Sequence, buffered: set<Sequence>, arrived: set<Sequence>, more: set<Sequence>, T: Sequence)
    requires Passes(c, buffered, arrived, T)
    ensures Passes(c, buffered, arrived + more, T)
  {
    var x := buffered + arrived;
    assert forall k :: k in x ==> k in buffered + (arrived + more);
  }

  /** Waiting takes the cursor past a watermark exactly if the run of what arrived does. */
  lemma WaitPasses(v: View, w: View, arrived: set<Sequence>, log: Log, restored: Option<Sequence>, T: Sequence)
    requires GoodWait(v, w, arrived, log, restored) && v.cursor.value <= T
    ensures T < w.cursor.value <==> Passes(v.cursor.value, v.buffered, arrived, T)
  {
    PassesExactly(v.cursor.value, v.buffered, arrived, w.buffered, w.cursor.value, T);
  }

  /** A cursor in range can be saved unless it is beyond the watermark. */
  lemma SavedUnlessStuck(x: Setting, i: int, s: Recovery)
    requires OnTrack(x, i, s)
    ensures CanPersist(s) <==> !Stuck(s)
  {
  }

  // --- Rate limits ---

  lemma RateLimitExit(x: Setting, i: int, s: Recovery, w: Recovery, e: TransportError, round: Round)
    requires HonestSetting(x) && OnTrack(x, i, s) && OnTrack(x, i + 1, w) && !Stuck(s)
    requires GoodWait(s.view, w.view, Arrived(round.during), x.logs(i + 1), x.restored) && w.through == s.through
    requires HonestArrivals(x.target, x.logs(i + 1), w.view.historyBefore, round.pause)
    requires e.code == RateLimitedCode && round.reply == Refused(e)
    ensures AfterRateLimit(w, e, round).1 == ExitOf(s, round)
    ensures Stuck(AfterRateLimit(w, e, round).0) <==> SticksAfter(s, round)
  {
    var A, B := Arrived(round.during), Arrived(round.pause);
    var pending := w.(phase := RecoveryPending);
    assert A + {} == A;
    SavedUnlessStuck(x, i + 1, pending);
    if s.through.Some? {
      WaitPasses(s.view, w.view, A, x.logs(i + 1), x.restored, s.through.value);
    }
    if IsDelay(e.retryAfterMs) && !Stuck(w) {
      var next := Await(Persist(pending, true), round.pause, round.cancelledInPause);
      AwaitTracks(x, i, Persist(pending, true), x.logs(i + 1), round.pause, round.cancelledInPause);
      MovedTwice(s.view.cursor.value, s.view.buffered, A, w.view.buffered, w.view.cursor.value,
                 B, next.view.buffered, next.view.cursor.value);
      if s.through.Some? {
        PassesExactly(s.view.cursor.value, s.view.buffered, A + B, next.view.buffered, next.view.cursor.value,
                      s.through.value);
      }
    } else if IsDelay(e.retryAfterMs) {
      PassesMore(s.view.cursor.value, s.view.buffered, A, B, s.through.value);
    }
  }

  // --- Pages ---

  /** A final page ends the loop unless it leaves a gap. */
  lemma FinalPageExit(x: Setting, i: int, w: Recovery, taken: Recovery, r: SyncResponse)
    requires OnTrack(x, i, w) && OnTrack(x, i, taken) && SyncContract(r) && !r.hasMoreAfter
    requires taken.view == ApplySync(w.view, r).view && ApplySync(w.view, r).outcome == Ok
    ensures AfterFinalPage(taken).1 == if GapBeyond(w.view.buffered, r.throughSequence) then Going else Finished
    ensures !Stuck(AfterFinalPage(taken).0)
  {
    PageMovesTo(w.view, r);
    var T := r.throughSequence;
    var waiting :| Above(w.view.buffered, waiting, T)
        && DrainedTo(waiting, T, taken.view.buffered, taken.view.cursor.value);
    GapIsLeft(w.view.buffered, waiting, taken.view.buffered, T, taken.view.cursor.value);
  }

  /** What waits beyond the watermark is what was buffered or arrived there. */
  lemma GapBeyondAbove(have: set<Sequence>, rest: set<Sequence>, c: Sequence, T: Sequence)
    requires Above(have, rest, c) && c <= T
    ensures GapBeyond(rest, T) <==> GapBeyond(have, T)
  {
    if GapBeyond(have, T) {
      var k, b :| T < k < b && b in have && k !in have;
      assert b in rest && k !in rest;
    }
    if GapBeyond(rest, T) {
      var k, b :| T < k < b && b in rest && k !in rest;
      assert b in have && k !in have;
    }
  }

  /** After a page that is not final, only a pause can take the cursor past the watermark. */
  lemma PageExit(x: Setting, i: int, taken: Recovery, round: Round)
    requires HonestSetting(x) && OnTrack(x, i + 1, taken) && !taken.aborted && !Stuck(taken) && taken.through.Some?
    requires HonestArrivals(x.target, x.logs(i + 1), taken.view.historyBefore, round.pause)
    ensures AfterPage(taken, round).1 == if BatchIsFull(taken) && round.cancelledInPause then CANCELLED else Going
    ensures Stuck(AfterPage(taken, round).0) <==>
            BatchIsFull(taken)
            && Passes(taken.view.cursor.value, taken.view.buffered, Arrived(round.pause), taken.through.value)
  {
    SavedUnlessStuck(x, i + 1, taken);
    var paused := Persist(Persist(taken, false).(phase := RecoveryPending), true);
    AwaitTracks(x, i, paused, x.logs(i + 1), round.pause, round.cancelledInPause);
    var waited := Await(paused, round.pause, round.cancelledInPause);
    WaitPasses(taken.view, waited.view, Arrived(round.pause), x.logs(i + 1), x.restored, taken.through.value);
  }

  /** The state in which the answer is found, after waiting for it. */
  ghost predicate Waited(x: Setting, i: int, s: Recovery, w: Recovery, round: Round) {
    && OnTrack(x, i + 1, w) && GoodWait(s.view, w.view, Arrived(round.during), x.logs(i + 1), x.restored)
    && w.through == s.through && w.aborted == round.cancelledDuring
    && (w.batchPages, w.batchMessages, w.batchBytes) == (s.batchPages, s.batchMessages, s.batchBytes)
  }

  /** A request that is cancelled or answered with nonsense leaves what arrived meanwhile. */
  lemma UnusableAnswerExit(x: Setting, i: int, s: Recovery, w: Recovery, r: SyncResponse, raw: int, round: Round)
    requires OnTrack(x, i, s) && !Stuck(s) && Waited(x, i, s, w, round)
    requires round.reply == Answered(r, raw) && (round.cancelledDuring || !IsByteLength(raw))
    ensures AfterAnswer(w, r, raw, round) == (w, ExitOf(s, round)) && (Stuck(w) <==> SticksAfter(s, round))
  {
    if s.through.Some? {
      WaitPasses(s.view, w.view, Arrived(round.during), x.logs(i + 1), x.restored, s.through.value);
    }
  }

  /** Waiting moves the cursor exactly if the message right after it arrives. */
  lemma WaitMoves(v: View, w: View, arrived: set<Sequence>, log: Log, restored: Option<Sequence>)
    requires GoodWait(v, w, arrived, log, restored)
    ensures w.cursor != v.cursor <==> v.cursor.value + 1 in arrived
    ensures v.cursor.value <= w.cursor.value
  {
    var have := v.buffered + arrived;
    assert v.cursor.value + 1 in arrived ==> v.cursor.value + 1 in have;
  }

  /** A page that no longer fits leaves its watermark behind. */
  lemma MismatchExit(x: Setting, i: int, s: Recovery, w: Recovery, r: SyncResponse, raw: int, round: Round)
    requires HonestSetting(x) && OnTrack(x, i, s) && !Stuck(s) && Waited(x, i, s, w, round)
    requires HonestPage(x.target, x.logs(i), r, s.view.cursor.value, s.through)
    requires round.reply == Answered(r, raw) && !round.cancelledDuring && IsByteLength(raw) && MovesCursor(s, round)
    ensures AfterAnswer(w, r, raw, round).1 == ExitOf(s, round)
    ensures Stuck(AfterAnswer(w, r, raw, round).0) <==> SticksAfter(s, round)
  {
    WaitMoves(s.view, w.view, Arrived(round.during), x.logs(i + 1), x.restored);
    TakePageTracks(x, i, w, r, raw, s.through);
    WaitPasses(s.view, w.view, Arrived(round.during), x.logs(i + 1), x.restored, r.throughSequence);
  }

  /** A page that fits and is not the last. */
  lemma MorePagesExit(x: Setting, i: int, s: Recovery, w: Recovery, r: SyncResponse, raw: int, round: Round)
    requires HonestSetting(x) && OnTrack(x, i, s) && !Stuck(s) && Waited(x, i, s, w, round)
    requires HonestPage(x.target, x.logs(i), r, s.view.cursor.value, s.through) && r.hasMoreAfter
    requires HonestArrivals(x.target, x.logs(i + 1), w.view.historyBefore, round.pause)
    requires round.reply == Answered(r, raw) && !round.cancelledDuring && IsByteLength(raw) && !MovesCursor(s, round)
    ensures AfterAnswer(w, r, raw, round).1 == ExitOf(s, round)
    ensures Stuck(AfterAnswer(w, r, raw, round).0) <==> SticksAfter(s, round)
  {
    var c, T, pause := r.nextAfterSequence, r.throughSequence, Arrived(round.pause);
    var have := s.view.buffered + Arrived(round.during);
    WaitMoves(s.view, w.view, Arrived(round.during), x.logs(i + 1), x.restored);
    TakePageTracks(x, i, w, r, raw, s.through);
    var taken := TakePage(w, r, raw).0;
    assert Passes(c, taken.view.buffered, pause, T) <==> Passes(c, have, pause, T) by {
      PageMovesTo(w.view, r);
      PassesAbove(c, w.view.buffered, taken.view.buffered, c, pause, T);
      PassesAbove(c, have, w.view.buffered, s.view.cursor.value, pause, T);
    }
    PageExit(x, i, taken, round);
  }

  /** A page that fits and is the last. */
  lemma LastPageExit(x: Setting, i: int, s: Recovery, w: Recovery, r: SyncResponse, raw: int, round: Round)
    requires HonestSetting(x) && OnTrack(x, i, s) && Waited(x, i, s, w, round)
    requires HonestPage(x.target, x.logs(i), r, s.view.cursor.value, s.through) && !r.hasMoreAfter
    requires round.reply == Answered(r, raw) && !round.cancelledDuring && IsByteLength(raw) && !MovesCursor(s, round)
    ensures AfterAnswer(w, r, raw, round).1 == ExitOf(s, round)
    ensures !Stuck(AfterAnswer(w, r, raw, round).0)
  {
    WaitMoves(s.view, w.view, Arrived(round.during), x.logs(i + 1), x.restored);
    TakePageTracks(x, i, w, r, raw, s.through);
    FinalPageExit(x, i + 1, w, TakePage(w, r, raw).0, r);
    GapBeyondAbove(s.view.buffered + Arrived(round.during), w.view.buffered, s.view.cursor.value, r.throughSequence);
  }

  lemma AnswerExit(x: Setting, i: int, s: Recovery, w: Recovery, r: SyncResponse, raw: int, round: Round)
    requires HonestSetting(x) && OnTrack(x, i, s) && !Stuck(s) && Waited(x, i, s, w, round)
    requires HonestPage(x.target, x.logs(i), r, s.view.cursor.value, s.through)
    requires HonestArrivals(x.target, x.logs(i + 1), w.view.historyBefore, round.pause)
    requires round.reply == Answered(r, raw)
    ensures AfterAnswer(w, r, raw, round).1 == ExitOf(s, round)
    ensures Stuck(AfterAnswer(w, r, raw, round).0) <==> SticksAfter(s, round)
  {
    if round.cancelledDuring || !IsByteLength(raw) {
      UnusableAnswerExit(x, i, s, w, r, raw, round);
    } else if MovesCursor(s, round) {
      MismatchExit(x, i, s, w, r, raw, round);
    } else if r.hasMoreAfter {
      MorePagesExit(x, i, s, w, r, raw, round);
    } else {
      LastPageExit(x, i, s, w, r, raw, round);
    }
  }

  /** Any other refusal leaves what arrived meanwhile. */
  lemma RefusalExit(x: Setting, i: int, s: Recovery, w: Recovery, e: TransportError, round: Round)
    requires OnTrack(x, i, s) && !Stuck(s) && Waited(x, i, s, w, round)
    requires round.reply == Refused(e) && e.code != RateLimitedCode
    ensures Stuck(w) <==> SticksAfter(s, round)
  {
    assert Arrived(round.during) + {} == Arrived(round.during);
    if s.through.Some? {
      WaitPasses(s.view, w.view, Arrived(round.during), x.logs(i + 1), x.restored, s.through.value);
    }
  }

  /**
   * In an honest setting, how a turn ends and whether it leaves the session stuck are decided by its
   * round and the state before it: by the reply, the cancellations, and what arrives when.
   */
  lemma TurnExits(x: Setting, i: int, s: Recovery)
    requires HonestSetting(x) && OnTrack(x, i, s) && !s.aborted && !Stuck(s)
    ensures var round := RoundAt(x.env, i, s);
            && Iterate(s, round).1 == ExitOf(s, round)
            && (Stuck(Iterate(s, round).0) <==> SticksAfter(s, round))
  {
    var round := RoundAt(x.env, i, s);
    RoundIsHonest(x, i, s);
    AwaitTracks(x, i, s, x.logs(i), round.during, round.cancelledDuring);
    var w := Await(s, round.during, round.cancelledDuring);
    assert Waited(x, i, s, w, round);
    match round.reply {
      case Answered(r, raw) => AnswerExit(x, i, s, w, r, raw, round);
      case Refused(e) =>
        if e.code == RateLimitedCode {
          RateLimitExit(x, i, s, w, e, round);
        } else {
          RefusalExit(x, i, s, w, e, round);
        }
    }
  }

  /** A turn that starts stuck fails and stays stuck: no page can answer, no rate limit can be waited for. */
  lemma StuckTurnFails(x: Setting, i: int, s: Recovery)
    requires HonestSetting(x) && OnTrack(x, i, s) && Stuck(s)
    ensures var (next, exit) := Iterate(s, RoundAt(x.env, i, s)); exit.Failed? && Stuck(next)
  {
    var round := RoundAt(x.env, i, s);
    RoundIsHonest(x, i, s);
    AwaitTracks(x, i, s, x.logs(i), round.during, round.cancelledDuring);
    assert s.aborted || round.reply.Refused?;
  }

  // --- Outside the loop ---

  /**
   * Between two recoveries, and before the first, what arrives gets the session stuck exactly if it
   * passes the watermark.
   */
  lemma WaitSticksExactly(x: Setting, i: int, s: Recovery, inputs: seq<Input>)
    requires HonestSetting(x) && OnTrack(x, i, s) && !Stuck(s)
    requires HonestArrivals(x.target, x.logs(i), s.view.historyBefore, inputs)
    ensures OnTrack(x, i, Await(s, inputs, false))
    ensures Stuck(Await(s, inputs, false)) <==> PassesWatermark(s, Arrived(inputs))
  {
    AwaitTracks(x, i - 1, s, x.logs(i), inputs, false);
    if s.through.Some? {
      WaitPasses(s.view, Await(s, inputs, false).view, Arrived(inputs), x.logs(i), x.restored, s.through.value);
    }
  }

  lemma WaitStaysStuck(x: Setting, i: int, s: Recovery, inputs: seq<Input>)
    requires HonestSetting(x) && OnTrack(x, i, s) && Stuck(s)
    requires HonestArrivals(x.target, x.logs(i), s.view.historyBefore, inputs)
    ensures OnTrack(x, i, Await(s, inputs, false)) && Stuck(Await(s, inputs, false))
  {
    AwaitTracks(x, i - 1, s, x.logs(i), inputs, false);
  }
}
