/** Recovery against an honest server with a bounded log: it ends, and what it ends with. */
module RecoveryRuns {
  import opened Messages
  import opened Contracts
  import opened CursorStorage
  import opened TimelineSpec
  import opened TimelineRuns
  import opened TimelineCoverage
  import opened GapBuffer
  import opened RecoverySpec

  /**
   * Where a recovery runs. `logs(i)` is the stream's log when the i-th request is answered; it never
   * exceeds `bound`, and from round `calm` on there are no more rate limits.
   */
  datatype Setting = Setting(
    target: ClientTarget,
    env: Environment,
    logs: int -> Log,
    restored: Option<Sequence>,
    bound: int,
    calm: int)

  /** An older page comes only as the answer to what the lower end asks for. */
  ghost predicate HonestArrival(t: Target, log: Log, low: Option<Sequence>, input: Input) {
    match input
    case Live(m) => HonestTo(t, log, m)
    case Accepted(m) => HonestTo(t, log, m)
    case Replace(m) => HonestTo(t, log, m)
    case Older(r) =>
      && low == Some(r.beforeSequence) && r.beforeSequence > 1
      && OlderContract(r) && r.streamId == CanonicalStreamId(t) && AllHonestTo(t, log, r.messages)
    case _ => false
  }

  /** The lower end after an input. */
  function NextLow(low: Option<Sequence>, input: Input): Option<Sequence> {
    if input.Older? then input.older.nextBeforeSequence else low
  }

  function LowAfter(low: Option<Sequence>, inputs: seq<Input>): Option<Sequence>
    decreases |inputs|
  {
    if inputs == [] then low else LowAfter(NextLow(low, inputs[0]), inputs[1..])
  }

  /** Messages of the log, and the older pages that are asked for one after the other. */
  ghost predicate HonestArrivals(t: Target, log: Log, low: Option<Sequence>, inputs: seq<Input>)
    decreases |inputs|
  {
    inputs == [] ||
    (HonestArrival(t, log, low, inputs[0]) && HonestArrivals(t, log, NextLow(low, inputs[0]), inputs[1..]))
  }

  /** The page answers the request: from its cursor, under its watermark, or else under the head. */
  ghost predicate HonestPage(t: Target, log: Log, r: SyncResponse, after: Sequence, through: Option<Sequence>) {
    && SyncContract(r) && r.streamId == CanonicalStreamId(t) && AllHonestTo(t, log, r.messages)
    && r.afterSequence == after
    && r.throughSequence == (if through.Some? then through.value else |log|) <= |log|
  }

  ghost predicate HonestRound(
    t: Target, log: Log, later: Log, round: Round, after: Sequence, through: Option<Sequence>, low: Option<Sequence>)
  {
    && (round.reply.Answered? ==> HonestPage(t, log, round.reply.response, after, through))
    && HonestArrivals(t, later, low, round.during)
    && HonestArrivals(t, later, LowAfter(low, round.during), round.pause)
  }

  predicate IsRateLimit(round: Round) {
    round.reply.Refused? && round.reply.error.code == RateLimitedCode
  }

  /** How things stand in round `i`. */
  ghost predicate LogAt(x: Setting, i: int) {
    Distinct(x.logs(i)) && x.logs(i) <= x.logs(i + 1) && |x.logs(i)| <= x.bound
  }

  ghost predicate HonestAt(x: Setting, i: int, after: Sequence, through: Option<Sequence>, low: Option<Sequence>) {
    && HonestRound(x.target, x.logs(i), x.logs(i + 1), x.env(i, after, through, low), after, through, low)
    && (i >= x.calm ==> !IsRateLimit(x.env(i, after, through, low)))
  }

  ghost predicate HonestSetting(x: Setting) {
    && 0 <= x.bound <= MAX_SAFE_INTEGER
    && (forall i :: LogAt(x, i))
    && (forall i, after, through, low :: HonestAt(x, i, after, through, low))
  }

  /** The round that a recovery runs into is honest. */
  lemma RoundIsHonest(x: Setting, i: int, s: Recovery)
    requires HonestSetting(x) && s.view.cursor.Some?
    ensures HonestRound(x.target, x.logs(i), x.logs(i + 1), RoundAt(x.env, i, s), s.view.cursor.value, s.through,
                        s.view.historyBefore)
    ensures LogAt(x, i) && LogAt(x, i + 1) && (i >= x.calm ==> !IsRateLimit(RoundAt(x.env, i, s)))
  {
    assert HonestAt(x, i, s.view.cursor.value, s.through, s.view.historyBefore);
  }

  /** What is saved can be loaded again, and is never ahead of what is on display. */
  ghost predicate Saved(stored: Option<Item>, cursor: Option<Sequence>) {
    stored.Some? ==>
      && stored.value.Readable? && IsStoredCursor(stored.value.cursor)
      && cursor.Some? && stored.value.cursor.deliverySyncCursor <= cursor.value
  }

  /** Cursor and watermark are numbers that can be saved. */
  predicate InRange(s: Recovery) {
    && (s.view.cursor.Some? ==> s.view.cursor.value <= MAX_SAFE_INTEGER)
    && (s.through.Some? ==> s.through.value <= MAX_SAFE_INTEGER)
  }

  /** What holds whenever the loop turns, in round `i`. */
  ghost predicate OnTrack(x: Setting, i: int, s: Recovery) {
    && Located(s) && ViewOf(s.view, x.target)
    && Tracks(s.view, x.logs(i), x.restored)
    && Saved(s.stored, s.view.cursor)
    && InRange(s)
  }

  // --- What arrives while the loop waits ---

  /** What waiting does: the timeline goes on tracking the log, and moves exactly as far as what arrived takes it. */
  ghost predicate GoodWait(v: View, w: View, arrived: set<Sequence>, log: Log, restored: Option<Sequence>) {
    && Tracks(w, log, restored) && CursorGrows(v, w) && (w.target, w.streamId) == (v.target, v.streamId)
    && v.cursor.Some? && w.cursor.Some? && MovedTo(v.cursor.value, v.buffered, arrived, w.buffered, w.cursor.value)
  }

  lemma MessageTracks(v: View, log: Log, restored: Option<Sequence>, t: ClientTarget, input: Input)
    requires Tracks(v, log, restored) && ViewOf(v, t) && v.cursor.Some?
    requires HonestArrival(t, log, v.historyBefore, input) && (input.Live? || input.Accepted?)
    ensures GoodWait(v, Apply(v, input).view, ArrivedIn(input), log, restored)
    ensures Apply(v, input).view.historyBefore == v.historyBefore
  {
    ApplyKeeps(v, input);
    match input {
      case Live(m) =>
        HonestPasses(v, log, m);
        LiveTracks(v, log, restored, m);
        DeliverMoves(v, m);
      case Accepted(m) =>
        HonestPasses(v, log, m);
        AcceptedTracks(v, log, restored, m);
        AcceptMoves(v, m);
    }
  }

  /** Older pages and replacements leave cursor and buffer alone. */
  lemma HistoryTracks(v: View, log: Log, restored: Option<Sequence>, t: ClientTarget, input: Input)
    requires Tracks(v, log, restored) && ViewOf(v, t) && v.cursor.Some?
    requires HonestArrival(t, log, v.historyBefore, input) && (input.Older? || input.Replace?)
    ensures GoodWait(v, Apply(v, input).view, {}, log, restored)
    ensures Apply(v, input).view.historyBefore == NextLow(v.historyBefore, input)
  {
    ApplyKeeps(v, input);
    match input {
      case Older(r) =>
        OlderTracks(v, log, restored, r);
        InsertAllKeepsWaiting(v, r.messages, v.cursor.value);
      case Replace(m) => ReplaceTracks(v, log, restored, m);
    }
  }

  lemma ArrivalTracks(v: View, log: Log, restored: Option<Sequence>, t: ClientTarget, input: Input)
    requires Tracks(v, log, restored) && ViewOf(v, t) && v.cursor.Some? && HonestArrival(t, log, v.historyBefore, input)
    ensures GoodWait(v, Apply(v, input).view, ArrivedIn(input), log, restored)
    ensures Apply(v, input).view.historyBefore == NextLow(v.historyBefore, input)
  {
    if input.Live? || input.Accepted? {
      MessageTracks(v, log, restored, t, input);
    } else {
      HistoryTracks(v, log, restored, t, input);
    }
  }

  lemma {:induction false} RunTracks(v: View, log: Log, restored: Option<Sequence>, t: ClientTarget, inputs: seq<Input>)
    requires Tracks(v, log, restored) && ViewOf(v, t) && v.cursor.Some?
             && HonestArrivals(t, log, v.historyBefore, inputs)
    ensures GoodWait(v, Run(v, inputs), Arrived(inputs), log, restored)
    ensures Run(v, inputs).historyBefore == LowAfter(v.historyBefore, inputs)
    decreases |inputs|
  {
    if inputs != [] {
      var next, w := Apply(v, inputs[0]).view, Run(v, inputs);
      ArrivalTracks(v, log, restored, t, inputs[0]);
      RunTracks(next, log, restored, t, inputs[1..]);
      MovedTwice(v.cursor.value, v.buffered, ArrivedIn(inputs[0]), next.buffered, next.cursor.value,
                 Arrived(inputs[1..]), w.buffered, w.cursor.value);
    }
  }

  /** Waiting keeps everything, and moves on to the longer log. */
  lemma AwaitTracks(x: Setting, i: int, s: Recovery, log: Log, inputs: seq<Input>, cancelled: bool)
    requires HonestSetting(x) && Located(s) && ViewOf(s.view, x.target) && Tracks(s.view, log, x.restored)
    requires Saved(s.stored, s.view.cursor) && InRange(s)
    requires log <= x.logs(i + 1) && HonestArrivals(x.target, x.logs(i + 1), s.view.historyBefore, inputs)
    ensures var w := Await(s, inputs, cancelled);
            && OnTrack(x, i + 1, w) && GoodWait(s.view, w.view, Arrived(inputs), x.logs(i + 1), x.restored)
            && w.view.historyBefore == LowAfter(s.view.historyBefore, inputs)
  {
    assert LogAt(x, i + 1);
    TracksLongerLog(s.view, log, x.logs(i + 1), x.restored);
    RunTracks(s.view, x.logs(i + 1), x.restored, x.target, inputs);
    AwaitKeepsLocated(s, inputs, cancelled);
    CursorStaysInRange(s.view, Run(s.view, inputs), x.logs(i + 1), x.restored);
  }

  lemma CursorStaysInRange(v: View, w: View, log: Log, restored: Option<Sequence>)
    requires Tracks(v, log, restored) && Tracks(w, log, restored) && v.cursor.Some? && CursorGrows(v, w)
    ensures w.cursor.value <= v.cursor.value || w.cursor.value <= |log|
  {
    if v.cursor.value < w.cursor.value {
      CursorMovesWithinLog(v, w, log, restored);
    }
  }

  // --- A page ---

  /** The cursor only moves onto messages of the log. */
  lemma CursorMovesWithinLog(v: View, w: View, log: Log, restored: Option<Sequence>)
    requires Tracks(w, log, restored) && v.cursor.Some? && w.cursor.Some? && 0 <= v.cursor.value < w.cursor.value
    requires restored.Some? ==> restored.value <= v.cursor.value
    ensures w.cursor.value <= |log|
  {
    assert Low(w, restored) <= w.cursor.value && w.cursor.value in w.visible;
    assert Logged(log, w.records[w.cursor.value]);
  }

  ghost predicate PageFits(s: Recovery, r: SyncResponse) {
    s.view.cursor == Some(r.afterSequence)
  }

  /** An honest page is taken exactly when the cursor has not moved since the request. */
  lemma TakePageTracks(x: Setting, i: int, s: Recovery, r: SyncResponse, raw: int, through: Option<Sequence>)
    requires HonestSetting(x) && OnTrack(x, i + 1, s)
    requires HonestPage(x.target, x.logs(i), r, r.afterSequence, through)
    ensures var (taken, exit) := TakePage(s, r, raw);
            && OnTrack(x, i + 1, taken) && CursorGrows(s.view, taken.view)
            && taken.view.historyBefore == s.view.historyBefore
            && taken.through == Some(r.throughSequence) && taken.aborted == s.aborted && taken.phase == s.phase
            && exit == (if PageFits(s, r) then Going else Failed(Protocol(SyncCursorMismatch)))
            && (PageFits(s, r) ==>
                  && r.nextAfterSequence <= taken.view.cursor.value
                  && (r.hasMoreAfter ==> taken.view.cursor.value == r.nextAfterSequence))
            && (!PageFits(s, r) ==> taken.view == s.view)
  {
    assert LogAt(x, i);
    SyncTracks(s.view, x.logs(i + 1), x.restored, r);
    ApplyKeeps(s.view, Sync(r));
    assert LogAt(x, i + 1);
    CursorStaysInRange(s.view, TakePage(s, r, raw).0.view, x.logs(i + 1), x.restored);
  }

  // --- The measure ---

  function Ahead(x: Setting, s: Recovery): nat {
    if s.view.cursor.Some? && s.view.cursor.value < x.bound then x.bound - s.view.cursor.value else 0
  }

  /** A watermark to reach, then perhaps a look whether there is more, and none if a gap says so. */
  function Pending(s: Recovery): nat {
    if s.through.Some? then 2 else if s.view.buffered == {} then 1 else 0
  }

  function LimitsLeft(x: Setting, i: int): nat {
    if i < x.calm then x.calm - i else 0
  }

  /** Every turn of the loop lowers these three, in this order. */
  predicate Lower(x: Setting, i: int, s: Recovery, next: Recovery) {
    || Ahead(x, next) < Ahead(x, s)
    || (Ahead(x, next) == Ahead(x, s) && Pending(next) < Pending(s))
    || (Ahead(x, next) == Ahead(x, s) && Pending(next) == Pending(s) && LimitsLeft(x, i + 1) < LimitsLeft(x, i))
  }

  lemma CursorMovesBound(x: Setting, i: int, s: Recovery, next: Recovery, log: Log)
    requires HonestSetting(x) && Located(s) && Tracks(s.view, log, x.restored)
    requires OnTrack(x, i, next) && CursorGrows(s.view, next.view)
    ensures Ahead(x, next) <= Ahead(x, s)
    ensures s.view.cursor.value < next.view.cursor.value ==>
            next.view.cursor.value <= |x.logs(i)| && Ahead(x, next) < Ahead(x, s)
  {
    assert LogAt(x, i);
    if s.view.cursor.value < next.view.cursor.value {
      CursorMovesWithinLog(s.view, next.view, x.logs(i), x.restored);
    }
  }

  // --- One turn of the loop ---

  /** What a turn of the loop leaves behind, also when it is the last. */
  ghost predicate GoodTurn(x: Setting, i: int, s: Recovery, next: Recovery, exit: Exit) {
    && OnTrack(x, i + 1, next) && CursorGrows(s.view, next.view)
    && (exit == Going ==> Lower(x, i, s, next))
  }

  /** A gap is only closed by moving the cursor. */
  lemma GapStays(v: View, w: View, arrived: set<Sequence>)
    requires Valid(v) && v.cursor.Some? && w.cursor.Some?
    requires MovedTo(v.cursor.value, v.buffered, arrived, w.buffered, w.cursor.value)
    ensures w.cursor == v.cursor && v.buffered != {} ==> w.buffered != {}
  {
    if w.cursor == v.cursor && v.buffered != {} {
      assert (forall b :: b !in v.buffered) ==> v.buffered == {};
      var b :| b in v.buffered;
      assert b in v.buffered + arrived && b in w.buffered;
    }
  }

  /** Being held up moves nothing back and closes no gap without moving the cursor. */
  ghost predicate HeldUp(v: View, w: View) {
    CursorGrows(v, w) && (w.cursor == v.cursor && v.buffered != {} ==> w.buffered != {})
  }

  lemma RateLimitTracks(x: Setting, i: int, w: Recovery, e: TransportError, round: Round)
    requires HonestSetting(x) && OnTrack(x, i + 1, w)
    requires HonestArrivals(x.target, x.logs(i + 1), w.view.historyBefore, round.pause)
    ensures var next := AfterRateLimit(w, e, round).0;
            OnTrack(x, i + 1, next) && next.through == w.through && HeldUp(w.view, next.view)
  {
    var pending := Persist(w.(phase := RecoveryPending), true);
    AwaitTracks(x, i, pending, x.logs(i + 1), round.pause, round.cancelledInPause);
    GapStays(w.view, Await(pending, round.pause, round.cancelledInPause).view, Arrived(round.pause));
  }

  lemma RateLimitTurn(x: Setting, i: int, s: Recovery, w: Recovery, e: TransportError, round: Round)
    requires HonestSetting(x) && OnTrack(x, i, s) && OnTrack(x, i + 1, w) && i < x.calm
    requires GoodWait(s.view, w.view, Arrived(round.during), x.logs(i + 1), x.restored) && w.through == s.through
    requires HonestArrivals(x.target, x.logs(i + 1), w.view.historyBefore, round.pause)
    ensures GoodTurn(x, i, s, AfterRateLimit(w, e, round).0, AfterRateLimit(w, e, round).1)
  {
    var next := AfterRateLimit(w, e, round).0;
    assert OnTrack(x, i + 1, next) && next.through == s.through && HeldUp(w.view, next.view) by {
      RateLimitTracks(x, i, w, e, round);
    }
    GapStays(s.view, w.view, Arrived(round.during));
    CursorMovesBound(x, i + 1, s, next, x.logs(i));
    assert s.view.cursor.value == next.view.cursor.value ==> Pending(next) <= Pending(s);
  }

  /** While a gap is known, the head is beyond the cursor: what waits in the buffer has been stored. */
  lemma GapShowsHead(x: Setting, i: int, s: Recovery)
    requires OnTrack(x, i, s) && s.view.buffered != {}
    ensures s.view.cursor.value < |x.logs(i)|
  {
    assert (forall b :: b !in s.view.buffered) ==> s.view.buffered == {};
    var b :| b in s.view.buffered;
    assert Logged(x.logs(i), s.view.records[b]);
  }

  lemma FinalPageTurn(x: Setting, i: int, s: Recovery, w: Recovery, taken: Recovery, r: SyncResponse)
    requires HonestSetting(x) && OnTrack(x, i, s) && OnTrack(x, i + 1, taken) && !r.hasMoreAfter
    requires CursorGrows(s.view, taken.view) && r.throughSequence <= taken.view.cursor.value
    requires r.throughSequence == if s.through.Some? then s.through.value else |x.logs(i)|
    ensures GoodTurn(x, i, s, AfterFinalPage(taken).0, AfterFinalPage(taken).1)
  {
    var (next, exit) := AfterFinalPage(taken);
    CursorMovesBound(x, i + 1, s, next, x.logs(i));
    if exit == Going && s.through.None? && s.view.buffered != {} {
      GapShowsHead(x, i, s);
    }
  }

  lemma PauseTracks(x: Setting, i: int, taken: Recovery, round: Round)
    requires HonestSetting(x) && OnTrack(x, i + 1, taken)
    requires HonestArrivals(x.target, x.logs(i + 1), taken.view.historyBefore, round.pause)
    ensures var next := AfterPage(taken, round).0; OnTrack(x, i + 1, next) && CursorGrows(taken.view, next.view)
  {
    var paused := Persist(Persist(taken, false).(phase := RecoveryPending), true);
    var waited := Await(paused, round.pause, round.cancelledInPause);
    assert OnTrack(x, i + 1, waited) && CursorGrows(taken.view, waited.view) by {
      AwaitTracks(x, i, paused, x.logs(i + 1), round.pause, round.cancelledInPause);
    }
  }

  lemma PageTurn(x: Setting, i: int, s: Recovery, taken: Recovery, round: Round)
    requires HonestSetting(x) && OnTrack(x, i, s) && OnTrack(x, i + 1, taken)
    requires s.view.cursor.value < taken.view.cursor.value
    requires HonestArrivals(x.target, x.logs(i + 1), taken.view.historyBefore, round.pause)
    ensures GoodTurn(x, i, s, AfterPage(taken, round).0, AfterPage(taken, round).1)
  {
    var next := AfterPage(taken, round).0;
    PauseTracks(x, i, taken, round);
    CursorMovesBound(x, i + 1, s, next, x.logs(i));
  }

  lemma AnswerTurn(x: Setting, i: int, s: Recovery, w: Recovery, r: SyncResponse, raw: int, round: Round)
    requires HonestSetting(x) && OnTrack(x, i, s) && OnTrack(x, i + 1, w)
    requires CursorGrows(s.view, w.view) && w.through == s.through
    requires HonestPage(x.target, x.logs(i), r, s.view.cursor.value, s.through)
    requires HonestArrivals(x.target, x.logs(i + 1), w.view.historyBefore, round.pause)
    ensures GoodTurn(x, i, s, AfterAnswer(w, r, raw, round).0, AfterAnswer(w, r, raw, round).1)
  {
    TakePageTracks(x, i, w, r, raw, s.through);
    var (taken, exit) := TakePage(w, r, raw);
    if exit == Going {
      if r.hasMoreAfter {
        PageTurn(x, i, s, taken, round);
      } else {
        FinalPageTurn(x, i, s, w, taken, r);
      }
    }
  }

  /** Every turn keeps the timeline on track, and lowers the measure unless it is the last one. */
  lemma TurnIsGood(x: Setting, i: int, s: Recovery)
    requires HonestSetting(x) && OnTrack(x, i, s)
    ensures var (next, exit) := Iterate(s, RoundAt(x.env, i, s)); GoodTurn(x, i, s, next, exit)
  {
    var round := RoundAt(x.env, i, s);
    RoundIsHonest(x, i, s);
    if s.aborted {
      TracksLongerLog(s.view, x.logs(i), x.logs(i + 1), x.restored);
    } else {
      AwaitTracks(x, i, s, x.logs(i), round.during, round.cancelledDuring);
      var w := Await(s, round.during, round.cancelledDuring);
      match round.reply {
        case Answered(r, raw) => AnswerTurn(x, i, s, w, r, raw, round);
        case Refused(e) => if e.code == RateLimitedCode { RateLimitTurn(x, i, s, w, e, round); }
      }
    }
  }

  // --- The loop ends ---

  /** Recovery ends, against every honest server with a bounded log that stops limiting the rate. */
  lemma RecoveryEnds(x: Setting, i: int, s: Recovery) returns (n: nat)
    requires HonestSetting(x) && OnTrack(x, i, s)
    ensures n > 0 && After(s, x.env, i, n).1 != Going
    ensures OnTrack(x, i + n, After(s, x.env, i, n).0) && CursorGrows(s.view, After(s, x.env, i, n).0.view)
    decreases Ahead(x, s), Pending(s), LimitsLeft(x, i)
  {
    var (next, exit) := Iterate(s, RoundAt(x.env, i, s));
    TurnIsGood(x, i, s);
    if exit == Going {
      n := RecoveryEnds(x, i + 1, next);
      AfterGoesOn(s, x.env, i, n);
      n := n + 1;
    } else {
      n := 1;
    }
  }
}
