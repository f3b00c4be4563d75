/** What a recovery has achieved when it ends, and when exactly it does not get there. */
module RecoveryOutcomes {
  import opened Messages
  import opened Contracts
  import opened CursorStorage
  import opened TimelineSpec
  import opened TimelineCoverage
  import opened GapBuffer
  import opened RecoverySpec
  import opened RecoveryRuns
  import opened RecoveryExits

  // --- Success ---

  /** Ready, no gap, and the cursor saved without a watermark. */
  ghost predicate Settled(s: Recovery) {
    && s.phase == Ready && s.through.None? && s.view.buffered == {}
    && s.view.cursor.Some? && s.stored == Some(Readable(StoredCursor(s.view.cursor.value, None, IdleState)))
  }

  predicate Active(s: Recovery) {
    s.aborted || s.phase == Recovering
  }

  /** The watermark, if there is one, was not taken before the first `seen` messages were stored. */
  predicate TakenSince(s: Recovery, seen: int) {
    s.through.Some? ==> seen <= s.through.value
  }

  /** The watermark after a turn: none, or that of the page if one came. */
  predicate KeepsWatermark(s: Recovery, round: Round, next: Recovery) {
    next.through.Some? ==>
      next.through == if round.reply.Answered? then Some(round.reply.response.throughSequence) else s.through
  }

  lemma AnswerSucceeds(x: Setting, i: int, w: Recovery, r: SyncResponse, raw: int, round: Round, after: Sequence,
                       through: Option<Sequence>)
    requires HonestSetting(x) && OnTrack(x, i + 1, w) && Active(w) && HonestPage(x.target, x.logs(i), r, after, through)
    ensures var (next, exit) := AfterAnswer(w, r, raw, round);
            && (exit == Going ==> Active(next) && (next.through.Some? ==> next.through == Some(r.throughSequence)))
            && (exit == Finished ==> Settled(next) && r.throughSequence <= next.view.cursor.value)
  {
    TakePageTracks(x, i, w, r, raw, through);
  }

  lemma TurnSucceeds(x: Setting, i: int, s: Recovery)
    requires HonestSetting(x) && OnTrack(x, i, s) && Active(s)
    ensures var round := RoundAt(x.env, i, s);
            var (next, exit) := Iterate(s, round);
            && (exit == Going ==> Active(next) && KeepsWatermark(s, round, next))
            && (exit == Finished ==>
                  && round.reply.Answered? && Settled(next)
                  && round.reply.response.throughSequence <= next.view.cursor.value)
  {
    var round := RoundAt(x.env, i, s);
    RoundIsHonest(x, i, s);
    AwaitTracks(x, i, s, x.logs(i), round.during, round.cancelledDuring);
    var w := Await(s, round.during, round.cancelledDuring);
    if round.reply.Answered? {
      AnswerSucceeds(x, i, w, round.reply.response, round.reply.rawUtf8ByteLength, round, s.view.cursor.value,
                     s.through);
    }
  }

  /** Without a pause, the loop never takes more than a batch allows. */
  lemma BatchesStayWithinLimits(s: Recovery, round: Round)
    requires Located(s) && !BatchIsFull(s)
    ensures Iterate(s, round).1 == Going ==> !BatchIsFull(Iterate(s, round).0)
  {
  }

  // --- Failure ---

  /**
   * Every cause of a failing turn, told from the state before it and from its round. No honest server
   * makes ids or targets conflict.
   */
  lemma TurnFailsExactly(x: Setting, i: int, s: Recovery)
    requires HonestSetting(x) && OnTrack(x, i, s) && !s.aborted && !Stuck(s)
    ensures var round := RoundAt(x.env, i, s);
            var exit := Iterate(s, round).1;
            match round.reply
            case Answered(r, raw) =>
              && (exit == CANCELLED <==>
                    || round.cancelledDuring
                    || (IsByteLength(raw) && !MovesCursor(s, round) && r.hasMoreAfter && FillsBatch(s, r, raw)
                        && round.cancelledInPause))
              && (exit == Failed(BadValue) <==> !round.cancelledDuring && !IsByteLength(raw))
              && (exit == Failed(Protocol(SyncCursorMismatch)) <==>
                  !round.cancelledDuring && IsByteLength(raw) && MovesCursor(s, round))
              && (exit.Failed? ==> exit in {CANCELLED, Failed(BadValue), Failed(Protocol(SyncCursorMismatch))})
            case Refused(e) =>
              if e.code != RateLimitedCode then exit == Failed(Transport(e))
              else
                && (exit == Failed(Protocol(SyncNoProgress)) <==> !IsDelay(e.retryAfterMs))
                && (exit == Failed(BadValue) <==> IsDelay(e.retryAfterMs) && PassesWatermark(s, Arrived(round.during)))
                && (exit == CANCELLED <==>
                      IsDelay(e.retryAfterMs) && !PassesWatermark(s, Arrived(round.during)) && round.cancelledInPause)
                && (exit.Failed? ==> exit in {CANCELLED, Failed(BadValue), Failed(Protocol(SyncNoProgress))})
  {
    TurnExits(x, i, s);
  }

  // --- Success under traffic ---

  /** A round in which the session waits after the reply: for a rate limit, or because a batch is full. */
  predicate Waits(s: Recovery, round: Round) {
    match round.reply
    case Answered(r, raw) => r.hasMoreAfter && FillsBatch(s, r, raw)
    case Refused(_) => true
  }

  predicate Cancels(s: Recovery, round: Round) {
    round.cancelledDuring || (Waits(s, round) && round.cancelledInPause)
  }

  /** A page or a valid delay, no cancellation, and nothing that moves the cursor when it may not move. */
  ghost predicate Friendly(s: Recovery, round: Round)
    requires s.view.cursor.Some?
  {
    && !SticksAfter(s, round) && !Cancels(s, round)
    && match round.reply
       case Answered(_, raw) => IsByteLength(raw) && !MovesCursor(s, round)
       case Refused(e) => e.code == RateLimitedCode && IsDelay(e.retryAfterMs)
  }

  /** A recovery that is still at work, and has not got stuck. */
  ghost predicate AtWork(x: Setting, i: int, s: Recovery) {
    HonestSetting(x) && OnTrack(x, i, s) && !s.aborted && s.phase == Recovering && !Stuck(s)
  }

  lemma FriendlyTurn(x: Setting, i: int, s: Recovery)
    requires AtWork(x, i, s) && Friendly(s, RoundAt(x.env, i, s))
    ensures var (next, exit) := Iterate(s, RoundAt(x.env, i, s));
            (exit == Going || exit == Finished) && (exit == Going ==> AtWork(x, i + 1, next))
  {
    TurnExits(x, i, s);
    TurnIsGood(x, i, s);
    TurnSucceeds(x, i, s);
    CancelledTurn(s, RoundAt(x.env, i, s));
  }

  /** A cancellation does not get lost: it is noticed at once, or when the next turn begins. */
  lemma CancelledTurn(s: Recovery, round: Round)
    requires Located(s) && !s.aborted
    ensures !Cancels(s, round) ==> !Iterate(s, round).0.aborted
    ensures Iterate(s, round).1 == Going && Cancels(s, round) ==> Iterate(s, round).0.aborted
  {
  }

  /** The rounds that a recovery runs into are friendly, for as long as it goes on, and `n` at most. */
  ghost predicate FriendlyFor(x: Setting, i: int, s: Recovery, n: nat)
    requires Located(s)
    decreases n
  {
    n == 0 ||
    (&& Friendly(s, RoundAt(x.env, i, s))
     && (Iterate(s, RoundAt(x.env, i, s)).1 == Going ==>
           (IterateKeepsLocated(s, RoundAt(x.env, i, s));
            FriendlyFor(x, i + 1, Iterate(s, RoundAt(x.env, i, s)).0, n - 1))))
  }

  lemma {:induction false} FriendlyFinishes(x: Setting, i: int, s: Recovery, n: nat)
    requires AtWork(x, i, s) && FriendlyFor(x, i, s, n) && After(s, x.env, i, n).1 != Going
    ensures After(s, x.env, i, n).1 == Finished
    decreases n
  {
    AfterTurn(s, x.env, i, n);
    FriendlyTurn(x, i, s);
    if Iterate(s, RoundAt(x.env, i, s)).1 == Going {
      FriendlyFinishes(x, i + 1, Iterate(s, RoundAt(x.env, i, s)).0, n - 1);
    }
  }

  /** The head that the last fresh watermark saw, of those taken within `n` rounds. */
  ghost function LastFreshHead(x: Setting, i: int, s: Recovery, n: nat): Option<int>
    requires Located(s)
    decreases n
  {
    if n == 0 then None
    else
      IterateKeepsLocated(s, RoundAt(x.env, i, s));
      var (next, exit) := Iterate(s, RoundAt(x.env, i, s));
      var later := if exit == Going then LastFreshHead(x, i + 1, next, n - 1) else None;
      if later.Some? then later
      else if s.through.None? && RoundAt(x.env, i, s).reply.Answered? then Some(|x.logs(i)|)
      else None
  }

  /** Where a recovery got to: the last fresh head, or the watermark it resumed if it never took a fresh one. */
  ghost predicate GotTo(s: Recovery, seen: Option<int>, final: Recovery) {
    && final.view.cursor.Some?
    && (seen.Some? ==> seen.value <= final.view.cursor.value)
    && (seen.None? ==> s.through.Some? && s.through.value <= final.view.cursor.value)
  }

  /** Recovery has ended within `n` rounds: settled, and at or above the head that its last fresh watermark saw. */
  ghost predicate EndsWell(x: Setting, i: int, s: Recovery, n: nat)
    requires Located(s)
  {
    var (final, exit) := After(s, x.env, i, n);
    exit == Finished && Settled(final) && GotTo(s, LastFreshHead(x, i, s, n), final)
  }

  /** A turn that takes a recovery further, with what its page says of the head. */
  lemma TurnGetsOn(x: Setting, i: int, s: Recovery)
    requires HonestSetting(x) && OnTrack(x, i, s) && Active(s)
    ensures var round := RoundAt(x.env, i, s);
            var (next, exit) := Iterate(s, round);
            && (exit == Going ==> OnTrack(x, i + 1, next) && Active(next) && KeepsWatermark(s, round, next))
            && (exit == Finished ==>
                  && Settled(next) && round.reply.Answered?
                  && round.reply.response.throughSequence <= next.view.cursor.value)
            && (round.reply.Answered? ==>
                  round.reply.response.throughSequence == if s.through.Some? then s.through.value else |x.logs(i)|)
  {
    TurnIsGood(x, i, s);
    TurnSucceeds(x, i, s);
    RoundIsHonest(x, i, s);
  }

  /** Every recovery that succeeds ends well. */
  lemma {:induction false} FinishedEndsWell(x: Setting, i: int, s: Recovery, n: nat)
    requires HonestSetting(x) && OnTrack(x, i, s) && Active(s) && After(s, x.env, i, n).1 == Finished
    ensures EndsWell(x, i, s, n)
    decreases n
  {
    AfterTurn(s, x.env, i, n);
    TurnGetsOn(x, i, s);
    if Iterate(s, RoundAt(x.env, i, s)).1 == Going {
      FinishedEndsWell(x, i + 1, Iterate(s, RoundAt(x.env, i, s)).0, n - 1);
    }
  }

  /** Heads seen later are not lower. */
  lemma {:induction false} FreshHeadsGrow(x: Setting, i: int, s: Recovery, n: nat)
    requires HonestSetting(x) && OnTrack(x, i, s)
    ensures LastFreshHead(x, i, s, n).Some? ==> |x.logs(i)| <= LastFreshHead(x, i, s, n).value
    decreases n
  {
    if n > 0 && Iterate(s, RoundAt(x.env, i, s)).1 == Going {
      assert LogAt(x, i);
      TurnIsGood(x, i, s);
      FreshHeadsGrow(x, i + 1, Iterate(s, RoundAt(x.env, i, s)).0, n - 1);
    }
  }

  /**
   * A recovery that succeeds leaves no gap, has saved its cursor without a watermark, and shows
   * at least every message that was stored when it began.
   */
  lemma RecoverySucceeds(x: Setting, i: int, s: Recovery, n: nat, seen: int)
    requires HonestSetting(x) && OnTrack(x, i, s) && Active(s) && TakenSince(s, seen) && seen <= |x.logs(i)|
    requires After(s, x.env, i, n).1 == Finished
    ensures var final := After(s, x.env, i, n).0; Settled(final) && seen <= final.view.cursor.value
  {
    FinishedEndsWell(x, i, s, n);
    FreshHeadsGrow(x, i, s, n);
  }

  /**
   * Whatever arrives, and however the log grows: if no round is cancelled, requests are answered or
   * validly delayed, no message right after the cursor arrives while a page is under way, and no wait
   * takes the cursor past the watermark, then recovery ends ready, without a gap, with its cursor
   * saved, and at or above the head that its last fresh watermark saw.
   */
  lemma FriendlyRecovery(x: Setting, i: int, s: Recovery, n: nat)
    requires AtWork(x, i, s) && FriendlyFor(x, i, s, n) && After(s, x.env, i, n).1 != Going
    ensures EndsWell(x, i, s, n)
  {
    FriendlyFinishes(x, i, s, n);
    FinishedEndsWell(x, i, s, n);
  }

  /** A turn after which recovery can still succeed was friendly. */
  lemma OnlyFriendlyTurns(x: Setting, i: int, s: Recovery, n: nat)
    requires AtWork(x, i, s) && n > 0 && After(s, x.env, i, n).1 == Finished
    ensures Friendly(s, RoundAt(x.env, i, s))
  {
    var (next, exit) := Iterate(s, RoundAt(x.env, i, s));
    TurnExits(x, i, s);
    if exit == Going {
      AfterGoesOn(s, x.env, i, n - 1);
      TurnIsGood(x, i, s);
      CancelledTurn(s, RoundAt(x.env, i, s));
      if Stuck(next) && n > 1 {
        StuckTurnFails(x, i + 1, next);
      }
    }
  }

  lemma {:induction false} OnlyFriendlySucceeds(x: Setting, i: int, s: Recovery, n: nat)
    requires AtWork(x, i, s) && After(s, x.env, i, n).1 == Finished
    ensures FriendlyFor(x, i, s, n)
    decreases n
  {
    AfterTurn(s, x.env, i, n);
    OnlyFriendlyTurns(x, i, s, n);
    FriendlyTurn(x, i, s);
    if Iterate(s, RoundAt(x.env, i, s)).1 == Going {
      OnlyFriendlySucceeds(x, i + 1, Iterate(s, RoundAt(x.env, i, s)).0, n - 1);
    }
  }

  /** Recovery ends, and it succeeds if and only if every round it ran into was friendly. */
  lemma SucceedsExactlyWhenFriendly(x: Setting, i: int, s: Recovery) returns (n: nat)
    requires AtWork(x, i, s)
    ensures After(s, x.env, i, n).1 != Going && OnTrack(x, i + n, After(s, x.env, i, n).0)
    ensures After(s, x.env, i, n).1 == Finished <==> FriendlyFor(x, i, s, n)
    ensures FriendlyFor(x, i, s, n) ==> EndsWell(x, i, s, n)
  {
    n := RecoveryEnds(x, i, s);
    if FriendlyFor(x, i, s, n) {
      FriendlyRecovery(x, i, s, n);
    }
    if After(s, x.env, i, n).1 == Finished {
      OnlyFriendlySucceeds(x, i, s, n);
    }
  }

  // --- Does it reach the head? ---

  /** Nothing but pages, rate limits and waiting. */
  predicate QuietRound(round: Round) {
    && round.during == [] && round.pause == [] && !round.cancelledDuring && !round.cancelledInPause
    && match round.reply
       case Answered(_, raw) => IsByteLength(raw)
       case Refused(e) => e.code == RateLimitedCode && IsDelay(e.retryAfterMs)
  }

  function Watermark(through: Option<Sequence>, h: int): Sequence {
    if through.Some? then through.value else h
  }

  predicate Askable(after: Sequence, through: Option<Sequence>, h: int) {
    0 <= after <= Watermark(through, h) <= h
  }

  ghost predicate QuietAt(x: Setting, h: int, i: int, after: Sequence, through: Option<Sequence>,
                          low: Option<Sequence>)
  {
    |x.logs(i)| == h && (Askable(after, through, h) ==> QuietRound(x.env(i, after, through, low)))
  }

  /** The stream has `h` messages, and nobody writes or sends anything during the recovery. */
  ghost predicate QuietSetting(x: Setting, h: int) {
    HonestSetting(x) && forall i, after, through, low :: QuietAt(x, h, i, after, through, low)
  }

  /**
   * Recovery gets to the head `h` unless it resumes under an older watermark with nothing buffered
   * that says there is more.
   */
  ghost predicate ReachesHead(s: Recovery, h: int) {
    s.through.None? || s.through.value == h || h in s.view.buffered || GapBeyond(s.view.buffered, s.through.value)
  }

  /** Where the loop stands in a quiet setting. */
  ghost predicate QuietTrack(x: Setting, h: int, i: int, s: Recovery) {
    && QuietSetting(x, h) && OnTrack(x, i, s)
    && !s.aborted && s.phase == Recovering && Askable(s.view.cursor.value, s.through, h)
  }

  lemma BufferedWithinLog(v: View, log: Log, restored: Option<Sequence>, b: Sequence)
    requires Tracks(v, log, restored) && b in v.buffered
    ensures b <= |log|
  {
    assert Logged(log, v.records[b]);
  }

  /** Whether recovery reaches the head depends only on what waits beyond the watermark. */
  lemma ReachesHeadAbove(s: Recovery, next: Recovery, h: int, c: Sequence)
    requires next.through == Some(Watermark(s.through, h)) && c < Watermark(s.through, h) <= h
    requires Above(s.view.buffered, next.view.buffered, c)
    ensures ReachesHead(next, h) <==> ReachesHead(s, h)
  {
    var T := Watermark(s.through, h);
    if s.through.Some? {
      assert forall b :: T < b ==> (b in next.view.buffered <==> b in s.view.buffered);
      if GapBeyond(s.view.buffered, T) {
        var k, b :| T < k < b && b in s.view.buffered && k !in s.view.buffered;
        assert b in next.view.buffered && k !in next.view.buffered;
      }
      if GapBeyond(next.view.buffered, T) {
        var k, b :| T < k < b && b in next.view.buffered && k !in next.view.buffered;
        assert b in s.view.buffered && k !in s.view.buffered;
      }
    }
  }

  /** After the final page without a gap, the head is reached exactly if something told of it. */
  lemma FinalPageReaches(before: set<Sequence>, waiting: set<Sequence>, rest: set<Sequence>, T: Sequence, c: Sequence,
                         h: int)
    requires Above(before, waiting, T) && DrainedTo(waiting, T, rest, c)
    requires T <= h && (forall b :: b in before ==> b <= h)
    ensures c <= h
    ensures rest != {} ==> GapBeyond(before, T)
    ensures rest == {} ==> (c == h <==> T == h || h in before || GapBeyond(before, T))
  {
    GapIsLeft(before, waiting, rest, T, c);
    assert c > T ==> c in waiting;
    assert h in before && T < h && rest == {} ==> h in waiting && h <= c;
  }

  /** A non-final page in a quiet setting. */
  lemma QuietPage(x: Setting, h: int, i: int, s: Recovery, r: SyncResponse, raw: int, round: Round)
    requires QuietTrack(x, h, i, s) && QuietRound(round) && round.reply == Answered(r, raw) && r.hasMoreAfter
    requires HonestPage(x.target, x.logs(i), r, s.view.cursor.value, s.through) && |x.logs(i)| == h
    requires OnTrack(x, i + 1, s)
    ensures var (next, exit) := AfterAnswer(s, r, raw, round);
            && exit == Going && !next.aborted && next.phase == Recovering
            && Askable(next.view.cursor.value, next.through, h)
            && (ReachesHead(next, h) <==> ReachesHead(s, h))
  {
    TakePageTracks(x, i, s, r, raw, s.through);
    PageMovesTo(s.view, r);
    assert LogAt(x, i);
    var (next, exit) := AfterAnswer(s, r, raw, round);
    ReachesHeadAbove(s, next, h, r.nextAfterSequence);
  }

  /** The same of the page that the timeline takes. */
  lemma FinalPageTakes(x: Setting, i: int, s: Recovery, r: SyncResponse, rest: set<Sequence>, c: Sequence)
    requires HonestSetting(x) && OnTrack(x, i, s) && SyncContract(r) && !r.hasMoreAfter
             && r.throughSequence <= |x.logs(i)|
    requires ApplySync(s.view, r).outcome == Ok
    requires rest == ApplySync(s.view, r).view.buffered && ApplySync(s.view, r).view.cursor == Some(c)
    ensures var T, h := r.throughSequence, |x.logs(i)|;
            && c <= h && (rest != {} ==> GapBeyond(s.view.buffered, T))
            && (rest == {} ==> (c == h <==> T == h || h in s.view.buffered || GapBeyond(s.view.buffered, T)))
  {
    var T, h := r.throughSequence, |x.logs(i)|;
    forall b | b in s.view.buffered ensures b <= h {
      BufferedWithinLog(s.view, x.logs(i), x.restored, b);
    }
    PageMovesTo(s.view, r);
    var waiting :| Above(s.view.buffered, waiting, T) && DrainedTo(waiting, T, rest, c);
    FinalPageReaches(s.view.buffered, waiting, rest, T, c, h);
  }

  /** The final page in a quiet setting. */
  lemma QuietFinalPage(x: Setting, h: int, i: int, s: Recovery, r: SyncResponse, raw: int, round: Round)
    requires QuietTrack(x, h, i, s) && QuietRound(round) && round.reply == Answered(r, raw) && !r.hasMoreAfter
    requires HonestPage(x.target, x.logs(i), r, s.view.cursor.value, s.through) && |x.logs(i)| == h
    requires OnTrack(x, i + 1, s)
    ensures var (next, exit) := AfterAnswer(s, r, raw, round);
            && !next.aborted && next.through.None?
            && next.view.cursor.Some? && next.view.cursor.value <= h
            && (exit == Going ==> next.phase == Recovering && ReachesHead(s, h))
            && (exit == Finished ==> (next.view.cursor == Some(h) <==> ReachesHead(s, h)))
  {
    TakePageTracks(x, i, s, r, raw, s.through);
    assert LogAt(x, i);
    var taken := TakePage(s, r, raw).0;
    FinalPageTakes(x, i, s, r, taken.view.buffered, taken.view.cursor.value);
  }

  lemma QuietTurn(x: Setting, h: int, i: int, s: Recovery)
    requires QuietTrack(x, h, i, s)
    ensures var (next, exit) := Iterate(s, RoundAt(x.env, i, s));
            && (exit == Going ==> QuietTrack(x, h, i + 1, next) && (ReachesHead(next, h) <==> ReachesHead(s, h)))
            && (exit == Finished ==> (next.view.cursor == Some(h) <==> ReachesHead(s, h)))
  {
    var round := RoundAt(x.env, i, s);
    TurnIsGood(x, i, s);
    assert QuietAt(x, h, i, s.view.cursor.value, s.through, s.view.historyBefore);
    RoundIsHonest(x, i, s);
    assert Await(s, [], false) == s;
    AwaitTracks(x, i, s, x.logs(i), [], false);
    match round.reply {
      case Answered(r, raw) =>
        if r.hasMoreAfter {
          QuietPage(x, h, i, s, r, raw, round);
        } else {
          QuietFinalPage(x, h, i, s, r, raw, round);
        }
      case Refused(e) =>
    }
  }

  lemma QuietIsFriendly(x: Setting, h: int, i: int, s: Recovery)
    requires QuietTrack(x, h, i, s)
    ensures AtWork(x, i, s) && Friendly(s, RoundAt(x.env, i, s))
  {
    assert QuietAt(x, h, i, s.view.cursor.value, s.through, s.view.historyBefore);
  }

  lemma {:induction false} QuietStaysFriendly(x: Setting, h: int, i: int, s: Recovery, n: nat)
    requires QuietTrack(x, h, i, s)
    ensures FriendlyFor(x, i, s, n)
    decreases n
  {
    if n > 0 {
      QuietIsFriendly(x, h, i, s);
      QuietTurn(x, h, i, s);
      if Iterate(s, RoundAt(x.env, i, s)).1 == Going {
        QuietStaysFriendly(x, h, i + 1, Iterate(s, RoundAt(x.env, i, s)).0, n - 1);
      }
    }
  }

  lemma {:induction false} QuietReaches(x: Setting, h: int, i: int, s: Recovery, n: nat)
    requires QuietTrack(x, h, i, s) && After(s, x.env, i, n).1 == Finished
    ensures After(s, x.env, i, n).0.view.cursor == Some(h) <==> ReachesHead(s, h)
    decreases n
  {
    var (next, exit) := Iterate(s, RoundAt(x.env, i, s));
    QuietTurn(x, h, i, s);
    if exit == Going {
      AfterGoesOn(s, x.env, i, n - 1);
      QuietReaches(x, h, i + 1, next, n - 1);
    }
  }

  /**
   * In a quiet setting recovery always succeeds, and it gets to the head exactly if it took a fresh
   * watermark, resumed one at the head, or had something in its buffer that told of the head.
   */
  lemma QuietRecovery(x: Setting, h: int, i: int, s: Recovery) returns (n: nat)
    requires QuietTrack(x, h, i, s)
    ensures After(s, x.env, i, n).1 == Finished && Settled(After(s, x.env, i, n).0)
    ensures After(s, x.env, i, n).0.view.cursor == Some(h) <==> ReachesHead(s, h)
  {
    n := RecoveryEnds(x, i, s);
    QuietIsFriendly(x, h, i, s);
    QuietStaysFriendly(x, h, i, s, n);
    FriendlyRecovery(x, i, s, n);
    QuietReaches(x, h, i, s, n);
  }
}
