/** Who is told what and when, and how far every request comes: told kind by kind, not step by step. */
module GatewayAnswers {
  import opened GatewayRelay

  // --- What is said ---

  predicate IsUnseen(r: Relay, i: int) {
    i !in r.requests && forall k :: 0 <= k < |r.answers| ==> r.answers[k].request != i
  }

  /** The session exists and is the connection that the frame came over. */
  predicate IsConnected(r: Relay, id: SessionId, generation: int) {
    id in r.sessions && r.sessions[id].generation == generation && r.sessions[id].state != ClosedState
  }

  predicate IsReady(r: Relay, id: SessionId) {
    id in r.sessions && r.sessions[id].state == ReadyState && r.sessions[id].connectedEventSent
  }

  /** The request holds its slot, and the connection it came over is there and ready. */
  predicate IsHeard(r: Relay, i: int) {
    && i in r.requests
    && var q := r.requests[i];
    && q.slot in r.inFlight && r.inFlight[q.slot] == i
    && IsConnected(r, q.slot.session, q.generation) && IsReady(r, q.slot.session)
  }

  predicate IsAt(r: Relay, i: int, stage: Stage) {
    i in r.requests && r.requests[i].stage == stage
  }

  /** A frame of a session that is connected and ready. */
  predicate IsFrame(r: Relay, e: Event, i: int) {
    e.StreamSync? && e.i == i && IsUnseen(r, i) && IsConnected(r, e.from, e.generation) && IsReady(r, e.from)
  }

  /** When exactly an event makes the relay give an answer. */
  predicate Says(r: Relay, e: Event, a: Answer) {
    var i := a.request;
    match a.kind
    case CloseBadFrame =>
      || (e.StreamSync? && e.i == i && IsUnseen(r, i) && !IsConnected(r, e.from, e.generation))
      || (IsFrame(r, e, i) && e.frame == Unreadable(false))
    case NotReady =>
      e.StreamSync? && e.i == i && IsUnseen(r, i) && IsConnected(r, e.from, e.generation) && !IsReady(r, e.from)
    case CloseTooLong => IsFrame(r, e, i) && e.frame == TooLong
    case BadRequest => IsFrame(r, e, i) && e.frame == Unreadable(true)
    case Duplicate => IsFrame(r, e, i) && e.frame.SyncFrame? && Slot(e.from, e.frame.target) in r.inFlight
    case Limited => e == LimiterAnswers(i, Denied) && IsAt(r, i, Limiting)
    case Unavailable => e == LimiterAnswers(i, Broken) && IsAt(r, i, Limiting)
    case Synced => e == UpstreamAnswers(i, Page) && IsAt(r, i, Calling) && IsHeard(r, i)
    case Failed =>
      && IsHeard(r, i)
      && (((e == UpstreamAnswers(i, Rejection) || e == UpstreamAnswers(i, Failure)) && IsAt(r, i, Calling))
          || (e == SendEnds(i, false) && IsAt(r, i, Replying(true))))
  }

  lemma SaidOfFrame(r: Relay, e: Event, a: Answer)
    requires e.StreamSync? && Says(r, e, a)
    ensures Step(r, e).answers == r.answers + [a]
  {
    assert Step(r, e) == Admit(r, e.i, e.from, e.generation, e.frame, e.limited);
  }

  lemma SaidOfReply(r: Relay, e: Event, a: Answer)
    requires Owned(r) && !e.StreamSync? && Says(r, e, a)
    ensures Step(r, e).answers == r.answers + [a]
  {
  }

  lemma FrameIsAnswered(r: Relay, e: Event) returns (a: Answer)
    requires e.StreamSync? && Step(r, e).answers != r.answers
    ensures Says(r, e, a) && Step(r, e).answers == r.answers + [a]
  {
    a := Step(r, e).answers[|r.answers|];
  }

  lemma LimiterIsAnswered(r: Relay, e: Event) returns (a: Answer)
    requires e.LimiterAnswers? && Step(r, e).answers != r.answers
    ensures Says(r, e, a) && Step(r, e).answers == r.answers + [a]
  {
    a := Step(r, e).answers[|r.answers|];
  }

  lemma UpstreamIsAnswered(r: Relay, e: Event) returns (a: Answer)
    requires Owned(r) && (e.UpstreamAnswers? || e.SendEnds?) && Step(r, e).answers != r.answers
    ensures Says(r, e, a) && Step(r, e).answers == r.answers + [a]
  {
    a := Step(r, e).answers[|r.answers|];
  }

  /** An event says what it has to say, and nothing else. */
  lemma StepSays(r: Relay, e: Event, a: Answer)
    requires Owned(r)
    ensures Says(r, e, a) <==> Step(r, e).answers == r.answers + [a]
  {
    if Says(r, e, a) {
      if e.StreamSync? {
        SaidOfFrame(r, e, a);
      } else {
        SaidOfReply(r, e, a);
      }
    }
    if Step(r, e).answers == r.answers + [a] {
      var b: Answer;
      assert Step(r, e).answers[|r.answers|] == a;
      if e.StreamSync? {
        b := FrameIsAnswered(r, e);
      } else if e.LimiterAnswers? {
        b := LimiterIsAnswered(r, e);
      } else {
        b := UpstreamIsAnswered(r, e);
      }
    }
  }

  lemma AtMostOneIsSaid(r: Relay, e: Event)
    requires Owned(r)
    ensures var next := Step(r, e).answers;
            next == r.answers || (|next| == |r.answers| + 1 && next[..|r.answers|] == r.answers)
  {
  }

  /** Every answer of a run has its reason: the event that gave it, where the relay stood by then. */
  lemma {:induction false} EveryAnswerHasItsReason(r: Relay, events: seq<Event>, k: nat) returns (j: nat)
    requires Good(r) && |r.answers| <= k < |Run(r, events).answers|
    ensures j < |events| && Says(Run(r, events[..j]), events[j], Run(r, events).answers[k])
    decreases |events|
  {
    var next := Step(r, events[0]);
    StepKeepsOwned(r, events[0]);
    StepKeepsAnsweredOnce(r, events[0]);
    AtMostOneIsSaid(r, events[0]);
    if k < |next.answers| {
      assert next.answers == r.answers + [next.answers[k]];
      StepSays(r, events[0], next.answers[k]);
      AnswersStay(next, events[1..]);
      assert events[..0] == [];
      j := 0;
    } else {
      j := EveryAnswerHasItsReason(next, events[1..], k);
      assert events[..j + 1][0] == events[0] && events[..j + 1][1..] == events[1..][..j];
      j := j + 1;
    }
  }

  lemma {:induction false} AnswersStay(r: Relay, events: seq<Event>)
    requires Good(r)
    ensures r.answers <= Run(r, events).answers
    decreases |events|
  {
    if events != [] {
      StepKeepsOwned(r, events[0]);
      StepKeepsAnsweredOnce(r, events[0]);
      AtMostOneIsSaid(r, events[0]);
      AnswersStay(Step(r, events[0]), events[1..]);
    }
  }

  // --- How far a request comes ---

  /** What an event makes of a request that it concerns. */
  function StageAfter(r: Relay, e: Event, i: int): Stage
    requires i in r.requests
  {
    var stage := r.requests[i].stage;
    match stage
    case Limiting => if !e.LimiterAnswers? || e.i != i then stage else if e.limiter == Allowed then Calling else Ended
    case Calling =>
      if !e.UpstreamAnswers? || e.i != i then stage
      else if IsHeard(r, i) && e.upstream != CancelledCall then Replying(e.upstream == Page)
      else Ended
    case Replying(good) =>
      if !e.SendEnds? || e.i != i then stage
      else if good && !e.sent && IsHeard(r, i) then Replying(false)
      else Ended
    case Ended => Ended
  }

  /** The closing of its own connection, or of the relay, aborts a request that holds its slot. */
  predicate IsAbortedBy(r: Relay, e: Event, i: int)
    requires i in r.requests
  {
    && Holds(r, i)
    && (e.Unregister?
        || (e.SessionCloses? && e.id == r.requests[i].slot.session && e.generation == r.requests[i].generation))
  }

  lemma HeardIsCurrent(r: Relay, i: int)
    ensures IsHeard(r, i) <==> IsCurrent(r, i)
  {
  }

  /** An answer that the request waits for. */
  predicate IsOwn(e: Event, i: int) {
    (e.LimiterAnswers? || e.UpstreamAnswers? || e.SendEnds?) && e.i == i
  }

  /** The same request, in a stage. */
  predicate StandsAt(r: Relay, next: Relay, i: int, stage: Stage)
    requires i in r.requests
  {
    && i in next.requests && next.requests[i].stage == stage
    && next.requests[i].slot == r.requests[i].slot && next.requests[i].generation == r.requests[i].generation
  }

  lemma OwnStageMoves(r: Relay, e: Event, i: int)
    requires Owned(r) && i in r.requests && IsOwn(e, i)
    ensures StandsAt(r, Step(r, e), i, StageAfter(r, e, i))
  {
    HeardIsCurrent(r, i);
  }

  lemma OtherStagesStay(r: Relay, e: Event, i: int)
    requires Owned(r) && i in r.requests && !IsOwn(e, i)
    ensures StandsAt(r, Step(r, e), i, r.requests[i].stage)
  {
  }

  lemma StagesMove(r: Relay, e: Event, i: int)
    requires Owned(r) && i in r.requests
    ensures StandsAt(r, Step(r, e), i, StageAfter(r, e, i))
  {
    if IsOwn(e, i) {
      OwnStageMoves(r, e, i);
    } else {
      OtherStagesStay(r, e, i);
    }
  }

  lemma AbortsMove(r: Relay, e: Event, i: int)
    requires Owned(r) && i in r.requests
    ensures i in Step(r, e).requests
    ensures Step(r, e).requests[i].aborted <==>
            if e == LimiterAnswers(i, Allowed) && r.requests[i].stage.Limiting? then false
            else r.requests[i].aborted || IsAbortedBy(r, e, i)
  {
  }

  /** Every request moves on as its own events say, and is aborted exactly with its connection or the relay. */
  lemma RequestsMove(r: Relay, e: Event, i: int)
    requires Owned(r) && i in r.requests
    ensures i in Step(r, e).requests
    ensures var before, after := r.requests[i], Step(r, e).requests[i];
            && after.slot == before.slot && after.generation == before.generation
            && after.stage == StageAfter(r, e, i)
            && (after.aborted <==>
                if e == LimiterAnswers(i, Allowed) && before.stage.Limiting? then false
                else before.aborted || IsAbortedBy(r, e, i))
  {
    StagesMove(r, e, i);
    AbortsMove(r, e, i);
  }

  /** A frame that is answered neither at once nor later becomes a request for its session and target. */
  lemma FramesAreTaken(r: Relay, e: Event, i: int)
    requires Owned(r) && e.StreamSync? && i !in r.requests
    ensures i in Step(r, e).requests <==>
            IsFrame(r, e, i) && e.frame.SyncFrame? && Slot(e.from, e.frame.target) !in r.inFlight
    ensures i in Step(r, e).requests ==>
              && Step(r, e).requests[i] ==
                 Request(Slot(e.from, e.frame.target), e.generation, if e.limited then Limiting else Calling, false)
              && (Holds(Step(r, e), i) <==> !e.limited)
  {
  }
}
