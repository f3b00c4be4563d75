/** One stream's session: it recovers its timeline, remembers its cursor, and loads older history. */
module StreamMessagesSession {
  import opened Messages
  import opened Contracts
  import opened CursorStorage
  import opened TimelineSpec
  import opened TimelineRuns
  import opened RecoverySpec
  import opened RecoveryPhases
  import opened StreamMessagesTimeline

  class StreamMessagesSessionModel {
    const timeline: StreamMessagesTimelineModel
    const cursorStorage: StreamMessagesCursorStorage

    var phase: Phase
    var throughSequence: Option<Sequence>
    var aborted: bool
    var batchPages: int
    var batchMessages: int
    var batchBytes: int

    /** What the older request under way asks for, if there is one. */
    var olderRequest: Option<Sequence>

    ghost predicate Valid()
      reads this, timeline
    {
      timeline.Valid()
    }

    ghost function State(): Recovery
      reads this, timeline, cursorStorage
    {
      Recovery(timeline.view, phase, throughSequence, cursorStorage.item, aborted, batchPages, batchMessages,
               batchBytes)
    }

    /** Takes up what an earlier session saved, if it can be read. */
    constructor (target: ClientTarget, storage: StreamMessagesCursorStorage)
      modifies storage
      ensures Valid() && fresh(timeline) && cursorStorage == storage && olderRequest == None
      ensures var found := old(storage.item);
              if found.Some? && found.value.Readable? && IsStoredCursor(found.value.cursor) then
                && storage.item == found
                && timeline.view == Fresh(target).(cursor := Some(found.value.cursor.deliverySyncCursor))
                && throughSequence == found.value.cursor.throughSequence
                && phase == (if found.value.cursor.recoveryState.PendingState? then RecoveryPending else Idle)
              else
                storage.item == None && timeline.view == Fresh(target) && throughSequence == None && phase == Idle
    {
      timeline := new StreamMessagesTimelineModel(target);
      cursorStorage := storage;
      phase, throughSequence, aborted, olderRequest := Idle, None, false, None;
      batchPages, batchMessages, batchBytes := 0, 0, 0;
      new;
      var stored := storage.Load();
      if stored.Some? {
        timeline.RestoreCursor(stored.value.deliverySyncCursor);
        throughSequence := stored.value.throughSequence;
        phase := if stored.value.recoveryState.PendingState? then RecoveryPending else Idle;
      }
    }

    // --- Waiting ---

    method Receive(input: Input) returns (o: Outcome)
      requires Valid()
      modifies timeline
      ensures Valid() && Apply(old(timeline.view), input) == Step(timeline.view, o)
    {
      match input {
        case Latest(r) => o := timeline.ApplyLatest(r);
        case Older(r) => o := timeline.ApplyOlder(r);
        case Sync(r) => o := timeline.ApplySync(r);
        case Live(m) => o := timeline.ApplyLive(m);
        case Accepted(m) => o := timeline.ApplyAccepted(m);
        case Replace(m) => o := timeline.ReplaceKnownMessage(m);
      }
    }

    /** Other inputs keep coming while this session waits; their errors are not this session's. */
    method WaitWhile(inputs: seq<Input>, cancelled: bool)
      requires Valid()
      modifies this`phase, this`aborted, timeline
      ensures Valid() && State() == Await(old(State()), inputs, cancelled)
    {
      for i := 0 to |inputs|
        invariant Valid() && Run(timeline.view, inputs[i..]) == Run(old(timeline.view), inputs)
        invariant phase == old(phase) && aborted == old(aborted)
      {
        assert inputs[i..][1..] == inputs[i + 1..];
        var o := Receive(inputs[i]);
      }
      if cancelled {
        aborted, phase := true, Cancelled;
      }
    }

    method PersistCursor(pending: bool) returns (ok: bool)
      requires Valid()
      modifies cursorStorage
      ensures Valid() && ok == CanPersist(old(State())) && State() == Persist(old(State()), pending)
    {
      if timeline.deliverySyncCursor.None? {
        return true;
      }
      ok := cursorStorage.Save(
        StoredCursor(timeline.deliverySyncCursor.value, throughSequence,
                     if pending || phase == RecoveryPending then PendingState else IdleState));
    }

    // --- The recovery loop ---

    method PauseForRateLimit(e: TransportError, round: Round) returns (exit: Exit)
      requires Valid()
      modifies this`phase, this`aborted, timeline, cursorStorage
      ensures Valid() && AfterRateLimit(old(State()), e, round) == (State(), exit)
    {
      if !IsDelay(e.retryAfterMs) {
        return Failed(Protocol(SyncNoProgress));
      }
      phase := RecoveryPending;
      var ok := PersistCursor(true);
      if !ok {
        return Failed(BadValue);
      }
      WaitWhile(round.pause, round.cancelledInPause);
      if round.cancelledInPause {
        return CANCELLED;
      }
      phase := Recovering;
      return Going;
    }

    method FinishBatch(r: SyncResponse, round: Round) returns (exit: Exit)
      requires Valid()
      modifies this, timeline, cursorStorage
      ensures Valid() && olderRequest == old(olderRequest)
      ensures (State(), exit) ==
              if !r.hasMoreAfter then AfterFinalPage(old(State())) else AfterPage(old(State()), round)
    {
      if !r.hasMoreAfter {
        throughSequence := None;
        var ok := PersistCursor(false);
        if !ok {
          return Failed(BadValue);
        }
        if timeline.HasBufferedGap() {
          batchPages, batchMessages, batchBytes := 0, 0, 0;
          return Going;
        }
        phase := Ready;
        return Finished;
      }
      var ok := PersistCursor(false);
      if !ok {
        return Failed(BadValue);
      }
      if batchPages >= MAX_RECOVERY_BATCH_PAGES || batchMessages >= MAX_RECOVERY_BATCH_MESSAGES
         || batchBytes >= MAX_RECOVERY_BATCH_UTF8_BYTES {
        phase := RecoveryPending;
        ok := PersistCursor(true);
        WaitWhile(round.pause, round.cancelledInPause);
        if aborted {
          return CANCELLED;
        }
        batchPages, batchMessages, batchBytes := 0, 0, 0;
        phase := Recovering;
      }
      return Going;
    }

    method ApplyPage(r: SyncResponse, raw: int) returns (exit: Exit)
      requires Valid()
      modifies this, timeline
      ensures Valid() && olderRequest == old(olderRequest)
      ensures TakePage(old(State()), r, raw) == (State(), exit)
    {
      throughSequence := Some(r.throughSequence);
      var o := timeline.ApplySync(r);
      if o != Ok {
        return Failed(Protocol(o.error));
      }
      batchPages := batchPages + 1;
      batchMessages := batchMessages + |r.messages|;
      batchBytes := batchBytes + raw;
      return Going;
    }

    method TakeAnswer(r: SyncResponse, raw: int, round: Round) returns (exit: Exit)
      requires Valid()
      modifies this, timeline, cursorStorage
      ensures Valid() && olderRequest == old(olderRequest)
      ensures AfterAnswer(old(State()), r, raw, round) == (State(), exit)
    {
      if aborted {
        return CANCELLED;
      }
      if !IsByteLength(raw) {
        return Failed(BadValue);
      }
      if throughSequence.Some? && throughSequence.value != r.throughSequence {
        return Failed(Protocol(SyncCursorMismatch));
      }
      ApplyKeeps(timeline.view, Sync(r));
      exit := ApplyPage(r, raw);
      if exit == Going {
        exit := FinishBatch(r, round);
      }
    }

    method Turn(round: Round) returns (exit: Exit)
      requires Valid()
      modifies this, timeline, cursorStorage
      ensures Valid() && olderRequest == old(olderRequest)
      ensures Iterate(old(State()), round) == (State(), exit)
    {
      if aborted {
        return CANCELLED;
      }
      WaitWhile(round.during, round.cancelledDuring);
      match round.reply {
        case Answered(r, raw) => exit := TakeAnswer(r, raw, round);
        case Refused(e) =>
          if e.code == RateLimitedCode {
            exit := PauseForRateLimit(e, round);
          } else {
            return Failed(Transport(e));
          }
      }
    }

    /** One turn of a loop that ends. */
    method TurnTowardsTheEnd(env: Environment, i: int, ghost left: nat) returns (exit: Exit)
      requires Valid() && Ending(State(), env, i, left).1 != Going
      modifies this, timeline, cursorStorage
      ensures Valid() && olderRequest == old(olderRequest) && left > 0
      ensures old(Ending(State(), env, i, left)) ==
              if exit == Going then Ending(State(), env, i + 1, left - 1) else (State(), exit)
    {
      var round := env(i, timeline.deliverySyncCursor.value, throughSequence, timeline.historyBeforeCursor);
      EndsAfterTurn(State(), env, i, left);
      exit := Turn(round);
    }

    method TurnUntilTheEnd(env: Environment, ghost n: nat) returns (exit: Exit)
      requires Valid() && Ending(State(), env, 0, n).1 != Going
      modifies this, timeline, cursorStorage
      ensures Valid() && olderRequest == old(olderRequest)
      ensures old(Ending(State(), env, 0, n)) == (State(), exit)
    {
      ghost var left := n;
      var i := 0;
      exit := TurnTowardsTheEnd(env, i, left);
      while exit == Going
        invariant Valid() && olderRequest == old(olderRequest) && left > 0
        invariant old(Ending(State(), env, 0, n)) ==
                  if exit == Going then Ending(State(), env, i + 1, left - 1) else (State(), exit)
        decreases left
      {
        i, left := i + 1, left - 1;
        exit := TurnTowardsTheEnd(env, i, left);
      }
    }

    /** The loop, for surroundings in which it ends after at most `n` rounds (see RecoveryRuns.RecoveryEnds). */
    method RecoverAfterCursor(env: Environment, ghost n: nat) returns (exit: Exit)
      requires Valid() && timeline.view.cursor.Some?
      requires After(Begin(State()), env, 0, n).1 != Going
      modifies this, timeline, cursorStorage
      ensures Valid() && olderRequest == old(olderRequest)
      ensures After(Begin(old(State())), env, 0, n) == (State(), exit)
    {
      aborted, phase := false, Recovering;
      batchPages, batchMessages, batchBytes := 0, 0, 0;
      exit := TurnUntilTheEnd(env, n);
    }

    method LoadLatest(reply: Reply<LatestResponse>, during: seq<Input>, cancelled: bool) returns (exit: Exit)
      requires Valid()
      modifies this, timeline, cursorStorage
      ensures Valid() && olderRequest == old(olderRequest)
      ensures FirstLoad(old(State()), reply, during, cancelled) == (State(), exit)
    {
      aborted, phase := false, LoadingLatest;
      WaitWhile(during, cancelled);
      match reply {
        case Refused(e) => return Failed(Transport(e));
        case Answered(r, raw) =>
          if aborted {
            return CANCELLED;
          }
          if !IsByteLength(raw) {
            return Failed(BadValue);
          }
          var o := timeline.ApplyLatest(r);
          if o != Ok {
            return Failed(Protocol(o.error));
          }
          throughSequence := None;
          var ok := PersistCursor(false);
          if !ok {
            return Failed(BadValue);
          }
          phase := Ready;
          return Finished;
      }
    }

    method LoadOrRecover(
      latest: Reply<LatestResponse>, during: seq<Input>, cancelled: bool, env: Environment, ghost n: nat)
      returns (exit: Exit)
      requires Valid()
      requires timeline.view.cursor.Some? ==> After(Begin(State()), env, 0, n).1 != Going
      modifies this, timeline, cursorStorage
      ensures Valid() && olderRequest == old(olderRequest)
      ensures (State(), exit) ==
              if old(timeline.view.cursor).None? then FirstLoad(old(State()), latest, during, cancelled)
              else After(Begin(old(State())), env, 0, n)
    {
      if timeline.deliverySyncCursor.None? {
        exit := LoadLatest(latest, during, cancelled);
      } else {
        exit := RecoverAfterCursor(env, n);
      }
    }

    /** Turns an error into a phase. */
    method Settle(exit: Exit) returns (threw: bool)
      requires Valid()
      modifies this`phase
      ensures Valid()
      ensures (State(), threw) ==
              if exit.Failed? then Conclude(old(State()), exit.failure) else (old(State()), false)
    {
      match exit {
        case Finished => return false;
        case Going => return false;
        case Failed(e) =>
          if aborted {
            phase := Cancelled;
            return false;
          }
          if e.Transport? {
            if e.cause.code == UnavailableCode {
              phase := StreamUnavailable;
              return false;
            }
            if e.cause.code == InvalidCursorCode {
              phase := InvalidCursor;
              return false;
            }
            if e.cause.retryable {
              phase := RetryableFailure;
              return false;
            }
          }
          phase := ProtocolFailure;
          return true;
      }
    }

    /**
     * Loads the latest page or recovers after the cursor, and turns errors into phases: ready, or the
     * phase that the cancellation or the refusal it met in the end leads to.
     */
    method Bootstrap(latest: Reply<LatestResponse>, during: seq<Input>, cancelled: bool, env: Environment, ghost n: nat)
      returns (threw: bool)
      requires Valid()
      requires timeline.view.cursor.Some? ==> After(Begin(State()), env, 0, n).1 != Going
      modifies this, timeline, cursorStorage
      ensures Valid() && olderRequest == old(olderRequest)
      ensures var (s, exit) :=
                if old(timeline.view.cursor).None? then FirstLoad(old(State()), latest, during, cancelled)
                else After(Begin(old(State())), env, 0, n);
              && (State(), threw) == (if exit.Failed? then Conclude(s, exit.failure) else (s, false))
              && (if exit.Failed? then EndsAs(aborted, old(LastRefusal(State(), latest, env, n)), phase, threw)
                  else phase == Ready && !threw)
    {
      AttemptEndsAs(State(), latest, during, cancelled, env, n);
      var exit := LoadOrRecover(latest, during, cancelled, env, n);
      threw := Settle(exit);
    }

    // --- Older history ---

    /** Asks for the page before the lower end, unless there is none or a request is under way. */
    method BeginLoadOlder() returns (before: Option<Sequence>)
      requires Valid()
      modifies this`olderRequest
      ensures Valid()
      ensures before == (if timeline.view.hasMoreBefore && old(olderRequest).None? then timeline.view.historyBefore
                         else None)
      ensures olderRequest == if before.Some? then before else old(olderRequest)
    {
      if timeline.historyBeforeCursor.None? || !timeline.hasMoreBefore || olderRequest.Some? {
        return None;
      }
      before := timeline.historyBeforeCursor;
      olderRequest := before;
    }

    /** The request is over in any case; its page is applied if there is one and nobody cancelled it. */
    method FinishLoadOlder(reply: Reply<OlderResponse>, cancelled: bool) returns (failure: Option<SessionError>)
      requires Valid() && olderRequest.Some?
      modifies this`olderRequest, timeline
      ensures Valid() && olderRequest == None
      ensures if reply.Refused? then failure == Some(Transport(reply.error)) && timeline.view == old(timeline.view)
              else if cancelled || !IsByteLength(reply.rawUtf8ByteLength) then
                failure.Some? && timeline.view == old(timeline.view)
              else
                var step := ApplyOlder(old(timeline.view), reply.response);
                timeline.view == step.view
                && failure == if step.outcome == Ok then None else Some(Protocol(step.outcome.error))
    {
      olderRequest := None;
      match reply {
        case Refused(e) => return Some(Transport(e));
        case Answered(r, raw) =>
          if cancelled {
            return Some(Transport(TransportError(CancelledCode, false, None)));
          }
          if !IsByteLength(raw) {
            return Some(BadValue);
          }
          var o := timeline.ApplyOlder(r);
          return if o == Ok then None else Some(Protocol(o.error));
      }
    }
  }
}
