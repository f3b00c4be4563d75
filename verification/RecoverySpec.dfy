/** The recovery loop round by round: one request, what happens while it is under way, and the pause after it. */
module RecoverySpec {
  import opened Messages
  import opened Contracts
  import opened CursorStorage
  import opened TimelineSpec
  import opened TimelineRuns
  import opened TimelineCoverage

  const MAX_RECOVERY_BATCH_PAGES := 10
  const MAX_RECOVERY_BATCH_MESSAGES := 500
  const MAX_RECOVERY_BATCH_UTF8_BYTES := 524288

  datatype Phase =
    | Idle | LoadingLatest | Recovering | RecoveryPending | Ready
    | StreamUnavailable | InvalidCursor | RetryableFailure | ProtocolFailure | Cancelled

  datatype Code = UnavailableCode | InvalidCursorCode | RateLimitedCode | CancelledCode | OtherCode

  datatype TransportError = TransportError(code: Code, retryable: bool, retryAfterMs: Option<int>)

  /** `BadValue` stands for the type errors: a size that is none, a cursor that cannot be saved. */
  datatype SessionError = Protocol(error: ProtocolError) | Transport(cause: TransportError) | BadValue

  const CANCELLED := Failed(Transport(TransportError(CancelledCode, false, None)))

  datatype Reply<R> = Answered(response: R, rawUtf8ByteLength: int) | Refused(error: TransportError)

  /** What the surroundings do in one round: the reply, and what else happens during request and pause. */
  datatype Round = Round(
    reply: Reply<SyncResponse>,
    during: seq<Input>,
    cancelledDuring: bool,
    pause: seq<Input>,
    cancelledInPause: bool)

  /** The surroundings: the n-th round, given cursor and watermark of the request, and the lower end of the history. */
  type Environment = (int, Sequence, Option<Sequence>, Option<Sequence>) -> Round

  datatype Recovery = Recovery(
    view: View,
    phase: Phase,
    through: Option<Sequence>,
    stored: Option<Item>,
    aborted: bool,
    batchPages: int,
    batchMessages: int,
    batchBytes: int)

  datatype Exit = Going | Finished | Failed(failure: SessionError)

  // --- Pieces of a round ---

  /** While the loop waits, other inputs reach the timeline, and the session may be cancelled. */
  function Await(s: Recovery, inputs: seq<Input>, cancelled: bool): Recovery
    requires Valid(s.view)
  {
    s.(
    view := Run(s.view, inputs),
    aborted := s.aborted || cancelled,
    phase := if cancelled then Cancelled else s.phase)
  }

  function ToStore(s: Recovery, pending: bool): StoredCursor
    requires s.view.cursor.Some?
  {
    StoredCursor(s.view.cursor.value, s.through,
                 if pending || s.phase == RecoveryPending then PendingState else IdleState)
  }

  predicate CanPersist(s: Recovery) {
    s.view.cursor.Some? ==> IsStoredCursor(ToStore(s, false))
  }

  function Persist(s: Recovery, pending: bool): Recovery {
    if s.view.cursor.Some? && CanPersist(s) then s.(stored := Some(Readable(ToStore(s, pending)))) else s
  }

  function NewBatch(s: Recovery): Recovery {
    s.(batchPages := 0, batchMessages := 0, batchBytes := 0)
  }

  predicate IsDelay(ms: Option<int>) {
    ms.Some? && 0 < ms.value <= MAX_SAFE_INTEGER
  }

  predicate IsByteLength(length: int) {
    0 <= length <= MAX_SAFE_INTEGER
  }

  predicate BatchIsFull(s: Recovery) {
    || s.batchPages >= MAX_RECOVERY_BATCH_PAGES
    || s.batchMessages >= MAX_RECOVERY_BATCH_MESSAGES
    || s.batchBytes >= MAX_RECOVERY_BATCH_UTF8_BYTES
  }

  /** Saves the cursor and waits for as long as the server says. */
  function AfterRateLimit(s: Recovery, e: TransportError, round: Round): (Recovery, Exit)
    requires Valid(s.view)
  {
    if !IsDelay(e.retryAfterMs) then (s, Failed(Protocol(SyncNoProgress)))
    else
      var pending := s.(phase := RecoveryPending);
      if !CanPersist(pending) then (pending, Failed(BadValue))
      else
        var waited := Await(Persist(pending, true), round.pause, round.cancelledInPause);
        if round.cancelledInPause then (waited, CANCELLED) else (waited.(phase := Recovering), Going)
  }

  /** The watermark is reached: done, unless live messages have left a gap open. */
  function AfterFinalPage(s: Recovery): (Recovery, Exit) {
    var done := s.(through := None);
    if !CanPersist(done) then (done, Failed(BadValue))
    else if s.view.buffered != {} then (NewBatch(Persist(done, false)), Going)
    else (Persist(done, false).(phase := Ready), Finished)
  }

  function AfterPage(s: Recovery, round: Round): (Recovery, Exit)
    requires Valid(s.view)
  {
    if !CanPersist(s) then (s, Failed(BadValue))
    else if !BatchIsFull(s) then (Persist(s, false), Going)
    else
      var paused := Persist(s, false).(phase := RecoveryPending);
      var waited := Await(Persist(paused, true), round.pause, round.cancelledInPause);
      if waited.aborted then (waited, CANCELLED) else (NewBatch(waited).(phase := Recovering), Going)
  }

  /** The page is applied before anything else is decided about it. */
  function TakePage(s: Recovery, r: SyncResponse, raw: int): (Recovery, Exit)
    requires Valid(s.view)
  {
    var watched := s.(through := Some(r.throughSequence));
    var step := ApplySync(watched.view, r);
    if step.outcome != Ok then (watched.(view := step.view), Failed(Protocol(step.outcome.error)))
    else
      (watched.(view := step.view, batchPages := s.batchPages + 1, batchMessages := s.batchMessages + |r.messages|,
                batchBytes := s.batchBytes + raw), Going)
  }

  function AfterAnswer(s: Recovery, r: SyncResponse, raw: int, round: Round): (Recovery, Exit)
    requires Valid(s.view)
  {
    if s.aborted then (s, CANCELLED)
    else if !IsByteLength(raw) then (s, Failed(BadValue))
    else if s.through.Some? && s.through.value != r.throughSequence then (s, Failed(Protocol(SyncCursorMismatch)))
    else
      ApplyKeeps(s.view, Sync(r));
      var (taken, exit) := TakePage(s, r, raw);
      if exit != Going then (taken, exit)
      else if !r.hasMoreAfter then AfterFinalPage(taken)
      else AfterPage(taken, round)
  }

  /** One turn of the loop. */
  function Iterate(s: Recovery, round: Round): (Recovery, Exit)
    requires Valid(s.view)
  {
    if s.aborted then (s, CANCELLED)
    else
      RunKeeps(s.view, round.during);
      var waited := Await(s, round.during, round.cancelledDuring);
      match round.reply
      case Answered(r, raw) => AfterAnswer(waited, r, raw, round)
      case Refused(e) =>
        if e.code == RateLimitedCode then AfterRateLimit(waited, e, round) else (waited, Failed(Transport(e)))
  }

  // --- Around the loop ---

  /** Every recovery starts with a new signal and a new batch. */
  function Begin(s: Recovery): Recovery {
    NewBatch(s.(aborted := false, phase := Recovering))
  }

  /** The phase that an error leads to, and whether the error is passed on to the caller. */
  function Conclude(s: Recovery, e: SessionError): (Recovery, bool) {
    if s.aborted then (s.(phase := Cancelled), false)
    else if e.Transport? && e.cause.code == UnavailableCode then (s.(phase := StreamUnavailable), false)
    else if e.Transport? && e.cause.code == InvalidCursorCode then (s.(phase := InvalidCursor), false)
    else if e.Transport? && e.cause.retryable then (s.(phase := RetryableFailure), false)
    else (s.(phase := ProtocolFailure), true)
  }

  /** A timeline without a cursor starts from the latest page. */
  function FirstLoad(s: Recovery, reply: Reply<LatestResponse>, during: seq<Input>, cancelled: bool): (Recovery, Exit)
    requires Valid(s.view)
  {
    RunKeeps(s.view, during);
    var waited := Await(s.(aborted := false, phase := LoadingLatest), during, cancelled);
    match reply
    case Refused(e) => (waited, Failed(Transport(e)))
    case Answered(r, raw) =>
      if waited.aborted then (waited, CANCELLED)
      else if !IsByteLength(raw) then (waited, Failed(BadValue))
      else
        var step := ApplyLatest(waited.view, r);
        var applied := waited.(view := step.view);
        if step.outcome != Ok then (applied, Failed(Protocol(step.outcome.error)))
        else
          var done := applied.(through := None);
          if !CanPersist(done) then (done, Failed(BadValue)) else (Persist(done, false).(phase := Ready), Finished)
  }

  // --- The index stays valid, and the cursor does not vanish ---

  lemma JumpThenDrainHasCursor(v: View, c: Sequence)
    requires Indexed(v)
    ensures Indexed(Jump(v, c)) && Drain(Jump(v, c)).cursor.Some?
  {
    JumpKeepsIndexed(v, c);
    DrainMovesCursorOnly(Jump(v, c));
  }

  lemma DeliverKeepsSomeCursor(v: View, m: PublicMessage)
    requires Indexed(v) && Check(v, m) == Ok && v.cursor.Some?
    ensures Deliver(v, m).cursor.Some?
  {
    if m.sequence == v.cursor.value + 1 {
      ShowKeepsIndexed(v, m);
      DrainMovesCursorOnly(Advance(v, m));
    }
  }

  lemma ApplyKeepsSomeCursor(v: View, input: Input)
    requires Valid(v) && v.cursor.Some?
    ensures Apply(v, input).view.cursor.Some?
  {
    match input {
      case Latest(r) =>
        InsertAllKeepsCursor(v, r.messages);
        InsertAllKeepsIndexed(v, r.messages);
        var inserted := InsertAll(v, r.messages).view;
        JumpThenDrainHasCursor(inserted.(historyBefore := r.nextBeforeSequence, hasMoreBefore := r.hasMoreBefore),
                               r.throughSequence);
      case Older(r) => InsertAllKeepsCursor(v, r.messages);
      case Sync(r) =>
        InsertAllKeepsCursor(v, r.messages);
        InsertAllKeepsIndexed(v, r.messages);
        JumpThenDrainHasCursor(InsertAll(v, r.messages).view, r.nextAfterSequence);
      case Live(m) => if Check(v, m) == Ok { DeliverKeepsSomeCursor(v, m); }
      case Accepted(m) =>
        if Check(v, m) == Ok {
          NoteAcceptedKeepsIndexed(v, m);
          DeliverKeepsSomeCursor(NoteAccepted(v, m), NoteAccepted(v, m).records[m.sequence]);
        }
      case Replace(m) =>
    }
  }

  lemma {:induction false} RunKeepsSomeCursor(v: View, inputs: seq<Input>)
    requires Valid(v) && v.cursor.Some?
    ensures Run(v, inputs).cursor.Some?
    decreases |inputs|
  {
    if inputs != [] {
      ApplyKeeps(v, inputs[0]);
      ApplyKeepsSomeCursor(v, inputs[0]);
      RunKeepsSomeCursor(Apply(v, inputs[0]).view, inputs[1..]);
    }
  }

  /** The loop runs only on a timeline that has a cursor. */
  ghost predicate Located(s: Recovery) {
    Valid(s.view) && s.view.cursor.Some?
  }

  lemma AwaitKeepsLocated(s: Recovery, inputs: seq<Input>, cancelled: bool)
    requires Located(s)
    ensures Located(Await(s, inputs, cancelled))
  {
    RunKeeps(s.view, inputs);
    RunKeepsSomeCursor(s.view, inputs);
  }

  lemma RateLimitKeepsLocated(s: Recovery, e: TransportError, round: Round)
    requires Located(s)
    ensures Located(AfterRateLimit(s, e, round).0)
  {
    AwaitKeepsLocated(Persist(s.(phase := RecoveryPending), true), round.pause, round.cancelledInPause);
  }

  lemma PageKeepsLocated(s: Recovery, round: Round)
    requires Located(s)
    ensures Located(AfterPage(s, round).0)
  {
    AwaitKeepsLocated(Persist(Persist(s, false).(phase := RecoveryPending), true), round.pause, round.cancelledInPause);
  }

  lemma AnswerKeepsLocated(s: Recovery, r: SyncResponse, raw: int, round: Round)
    requires Located(s)
    ensures Located(AfterAnswer(s, r, raw, round).0)
  {
    ApplyKeeps(s.view, Sync(r));
    ApplyKeepsSomeCursor(s.view, Sync(r));
    var taken := TakePage(s, r, raw).0;
    assert Located(taken);
    PageKeepsLocated(taken, round);
  }

  lemma IterateKeepsLocated(s: Recovery, round: Round)
    requires Located(s)
    ensures Located(Iterate(s, round).0)
  {
    AwaitKeepsLocated(s, round.during, round.cancelledDuring);
    var waited := Await(s, round.during, round.cancelledDuring);
    match round.reply {
      case Refused(e) => RateLimitKeepsLocated(waited, e, round);
      case Answered(r, raw) => AnswerKeepsLocated(waited, r, raw, round);
    }
  }

  // --- The loop ---

  /** The round that a request from here runs into. */
  function RoundAt(env: Environment, i: int, s: Recovery): Round
    requires s.view.cursor.Some?
  {
    env(i, s.view.cursor.value, s.through, s.view.historyBefore)
  }

  /** The state after at most `n` rounds from round `i` on, and how the loop ended, if it did. */
  function After(s: Recovery, env: Environment, i: int, n: nat): (Recovery, Exit)
    requires Located(s)
    decreases n
  {
    if n == 0 then (s, Going)
    else
      IterateKeepsLocated(s, RoundAt(env, i, s));
      var (next, exit) := Iterate(s, RoundAt(env, i, s));
      if exit == Going then After(next, env, i + 1, n - 1) else (next, exit)
  }

  lemma AfterGoesOn(s: Recovery, env: Environment, i: int, n: nat)
    requires Located(s) && Iterate(s, RoundAt(env, i, s)).1 == Going
    ensures Located(Iterate(s, RoundAt(env, i, s)).0)
    ensures After(s, env, i, n + 1) == After(Iterate(s, RoundAt(env, i, s)).0, env, i + 1, n)
  {
    IterateKeepsLocated(s, RoundAt(env, i, s));
  }

  /** The loop has ended after its next turn, or ends as it does from there on. */
  lemma AfterTurn(s: Recovery, env: Environment, i: int, n: nat)
    requires Located(s) && After(s, env, i, n).1 != Going
    ensures n > 0 && Located(Iterate(s, RoundAt(env, i, s)).0)
    ensures var (next, exit) := Iterate(s, RoundAt(env, i, s));
            After(s, env, i, n) == if exit == Going then After(next, env, i + 1, n - 1) else (next, exit)
  {
    IterateKeepsLocated(s, RoundAt(env, i, s));
  }

  /** How the loop stands after at most `n` more rounds; a timeline without a cursor goes nowhere. */
  ghost function Ending(s: Recovery, env: Environment, i: int, n: nat): (Recovery, Exit) {
    if Located(s) then After(s, env, i, n) else (s, Going)
  }

  lemma EndsAfterTurn(s: Recovery, env: Environment, i: int, n: nat)
    requires Ending(s, env, i, n).1 != Going
    ensures n > 0 && Located(s)
    ensures var (next, turn) := Iterate(s, RoundAt(env, i, s));
            Ending(s, env, i, n) == if turn == Going then Ending(next, env, i + 1, n - 1) else (next, turn)
  {
    IterateKeepsLocated(s, RoundAt(env, i, s));
  }
}
