/** The gateway's relay of stream syncs: one slot per session and target, held across awaits. */
module GatewayRelay {
  import opened Collections
  import opened Messages

  datatype SessionId = SessionId(text: string)

  /** The slot's key; in text form it is a JSON array, which determines its parts. */
  datatype Slot = Slot(session: SessionId, target: ClientTarget)

  datatype SessionState = Authenticating | ReadyState | ClosedState

  datatype Session = Session(generation: int, state: SessionState, connectedEventSent: bool)

  datatype Frame = TooLong | Unreadable(hasRequestId: bool) | SyncFrame(target: ClientTarget)

  /** Where a request waits: for the limiter, for the upstream call, for its answer to be sent. */
  datatype Stage = Limiting | Calling | Replying(good: bool) | Ended

  datatype Request = Request(slot: Slot, generation: int, stage: Stage, aborted: bool)

  datatype Kind =
    | CloseBadFrame | CloseTooLong | NotReady | BadRequest | Duplicate | Limited | Unavailable | Synced | Failed

  datatype Answer = Answer(request: int, kind: Kind)

  datatype Relay = Relay(
    inFlight: map<Slot, int>,
    requests: map<int, Request>,
    sessions: map<SessionId, Session>,
    answers: seq<Answer>)

  datatype Upstream = Page | Rejection | CancelledCall | Failure

  datatype LimiterAnswer = Allowed | Denied | Broken

  datatype Event =
    | SessionChanges(id: SessionId, session: Session)
    | StreamSync(i: int, from: SessionId, generation: int, frame: Frame, limited: bool)
    | LimiterAnswers(i: int, limiter: LimiterAnswer)
    | UpstreamAnswers(i: int, upstream: Upstream)
    | SendEnds(i: int, sent: bool)
    | SessionCloses(id: SessionId, generation: int)
    | Unregister

  // --- The steps between two awaits, on values ---

  function Say(r: Relay, i: int, kind: Kind): Relay {
    r.(answers := r.answers + [Answer(i, kind)])
  }

  predicate IsLive(r: Relay, id: SessionId, generation: int) {
    id in r.sessions && r.sessions[id] == Session(generation, ReadyState, true)
  }

  /** The request still holds its slot, and its session is still the connection it came from. */
  predicate IsCurrent(r: Relay, i: int) {
    && i in r.requests
    && r.requests[i].slot in r.inFlight && r.inFlight[r.requests[i].slot] == i
    && IsLive(r, r.requests[i].slot.session, r.requests[i].generation)
  }

  function Start(r: Relay, i: int, slot: Slot, generation: int): Relay {
    r.(requests := r.requests[i := Request(slot, generation, Calling, false)], inFlight := r.inFlight[slot := i])
  }

  function Admit(r: Relay, i: int, id: SessionId, generation: int, frame: Frame, limited: bool): Relay {
    if id !in r.sessions || r.sessions[id].generation != generation || r.sessions[id].state == ClosedState then
      Say(r, i, CloseBadFrame)
    else if r.sessions[id].state != ReadyState || !r.sessions[id].connectedEventSent then Say(r, i, NotReady)
    else match frame
      case TooLong => Say(r, i, CloseTooLong)
      case Unreadable(hasRequestId) => Say(r, i, if hasRequestId then BadRequest else CloseBadFrame)
      case SyncFrame(target) =>
        var slot := Slot(id, target);
        if slot in r.inFlight then Say(r, i, Duplicate)
        else if limited then r.(requests := r.requests[i := Request(slot, generation, Limiting, false)])
        else Start(r, i, slot, generation)
  }

  /** A request gives its slot back, if it still has it. */
  function Finish(r: Relay, i: int): Relay
    requires i in r.requests
  {
    var slot := r.requests[i].slot;
    r.(requests := r.requests[i := r.requests[i].(stage := Ended)],
       inFlight := if slot in r.inFlight && r.inFlight[slot] == i then r.inFlight - {slot} else r.inFlight)
  }

  function AfterLimiter(r: Relay, i: int, limiter: LimiterAnswer): Relay
    requires i in r.requests
  {
    match limiter
    case Allowed => Start(r, i, r.requests[i].slot, r.requests[i].generation)
    case Denied => Say(Finish(r, i), i, Limited)
    case Broken => Say(Finish(r, i), i, Unavailable)
  }

  function Reply(r: Relay, i: int, kind: Kind, good: bool): Relay
    requires i in r.requests
  {
    Say(r, i, kind).(requests := r.requests[i := r.requests[i].(stage := Replying(good))])
  }

  /** Nobody is told about an error in a request that was aborted, superseded or cancelled. */
  function AfterError(r: Relay, i: int, upstream: Upstream): Relay
    requires i in r.requests
  {
    if r.requests[i].aborted || !IsCurrent(r, i) || upstream == CancelledCall then Finish(r, i)
    else Reply(r, i, Failed, false)
  }

  function AfterUpstream(r: Relay, i: int, upstream: Upstream): Relay
    requires i in r.requests
  {
    if upstream != Page then AfterError(r, i, upstream)
    else if IsCurrent(r, i) then Reply(r, i, Synced, true)
    else Finish(r, i)
  }

  /** A page that could not be sent counts as a failure. */
  function AfterSend(r: Relay, i: int, sent: bool): Relay
    requires i in r.requests && r.requests[i].stage.Replying?
  {
    if !sent && r.requests[i].stage.good then AfterError(r, i, Failure) else Finish(r, i)
  }

  predicate IsOf(r: Relay, slot: Slot, id: SessionId, generation: int) {
    slot in r.inFlight && slot.session == id
    && r.inFlight[slot] in r.requests && r.requests[r.inFlight[slot]].generation == generation
  }

  /** Every request that holds one of the slots is aborted, and the slots are free. */
  function AbortThese(r: Relay, slots: set<Slot>): Relay {
    r.(requests := map i | i in r.requests :: if Holds(r, i) && r.requests[i].slot in slots
                                              then r.requests[i].(aborted := true) else r.requests[i],
       inFlight := r.inFlight - slots)
  }

  predicate Holds(r: Relay, i: int) {
    i in r.requests && r.requests[i].slot in r.inFlight && r.inFlight[r.requests[i].slot] == i
  }

  function SlotsOf(r: Relay, id: SessionId, generation: int): set<Slot> {
    set slot | slot in r.inFlight && IsOf(r, slot, id, generation)
  }

  function Step(r: Relay, e: Event): Relay {
    match e
    case SessionChanges(id, session) => r.(sessions := r.sessions[id := session])
    case StreamSync(i, id, generation, frame, limited) =>
      if i in r.requests || (exists k :: 0 <= k < |r.answers| && r.answers[k].request == i) then r
      else Admit(r, i, id, generation, frame, limited)
    case LimiterAnswers(i, limiter) =>
      if i in r.requests && r.requests[i].stage.Limiting? then AfterLimiter(r, i, limiter) else r
    case UpstreamAnswers(i, upstream) =>
      if i in r.requests && r.requests[i].stage.Calling? then AfterUpstream(r, i, upstream) else r
    case SendEnds(i, sent) => if i in r.requests && r.requests[i].stage.Replying? then AfterSend(r, i, sent) else r
    case SessionCloses(id, generation) => AbortThese(r, SlotsOf(r, id, generation))
    case Unregister => AbortThese(r, r.inFlight.Keys)
  }

  // --- What always holds ---

  predicate Works(q: Request) {
    q.stage.Calling? || q.stage.Replying?
  }

  /** A slot is held by a request of its own that is at work and not aborted: never by a finished or closed one. */
  ghost predicate Owned(r: Relay) {
    forall slot :: slot in r.inFlight ==>
      && r.inFlight[slot] in r.requests
      && var q := r.requests[r.inFlight[slot]];
      q.slot == slot && Works(q) && !q.aborted
  }

  /** Every request at work that is not aborted holds its slot, so there is at most one for each. */
  ghost predicate Exclusive(r: Relay) {
    forall i :: i in r.requests && Works(r.requests[i]) && !r.requests[i].aborted ==> Holds(r, i)
  }

  predicate AfterCall(kind: Kind) {
    kind == Synced || kind == Failed
  }

  predicate Follows(a: Answer, b: Answer) {
    a.request == b.request ==> a.kind == Synced && b.kind == Failed
  }

  /** No request is answered twice, except that a failure may follow a page that could not be sent. */
  ghost predicate AnsweredOnce(r: Relay) {
    && (forall k, l :: 0 <= k < l < |r.answers| ==> Follows(r.answers[k], r.answers[l]))
    && (forall k :: 0 <= k < |r.answers| && r.answers[k].request in r.requests ==>
          AnswerFits(r.answers[k].kind, r.requests[r.answers[k].request].stage))
  }

  /** What may have been said by the time a request is in a stage. */
  predicate AnswerFits(kind: Kind, stage: Stage) {
    match stage
    case Limiting => false
    case Calling => false
    case Replying(good) => if good then kind == Synced else AfterCall(kind)
    case Ended => true
  }

  ghost predicate Good(r: Relay) {
    Owned(r) && AnsweredOnce(r)
  }

  lemma StartKeepsOwned(r: Relay, i: int, slot: Slot, generation: int)
    requires Owned(r) && (i in r.requests ==> !Works(r.requests[i]))
    ensures Owned(Start(r, i, slot, generation))
  {
  }

  lemma FinishKeeps(r: Relay, i: int)
    requires Owned(r) && i in r.requests
    ensures Owned(Finish(r, i)) && (Exclusive(r) ==> Exclusive(Finish(r, i)))
  {
    if Exclusive(r) {
      var next := Finish(r, i);
      forall j | j in next.requests && Works(next.requests[j]) && !next.requests[j].aborted ensures Holds(next, j) {
        assert j != i && Holds(r, j);
      }
    }
  }

  lemma ReplyKeeps(r: Relay, i: int, kind: Kind, good: bool)
    requires Owned(r) && i in r.requests && Works(r.requests[i])
    ensures Owned(Reply(r, i, kind, good)) && (Exclusive(r) ==> Exclusive(Reply(r, i, kind, good)))
  {
    if Exclusive(r) {
      var next := Reply(r, i, kind, good);
      forall j | j in next.requests && Works(next.requests[j]) && !next.requests[j].aborted ensures Holds(next, j) {
        assert Holds(r, j);
      }
    }
  }

  lemma AbortKeeps(r: Relay, slots: set<Slot>)
    requires Owned(r)
    ensures Owned(AbortThese(r, slots)) && (Exclusive(r) ==> Exclusive(AbortThese(r, slots)))
  {
    if Exclusive(r) {
      var next := AbortThese(r, slots);
      forall j | j in next.requests && Works(next.requests[j]) && !next.requests[j].aborted ensures Holds(next, j) {
        assert Holds(r, j);
      }
    }
  }

  lemma AdmitKeeps(r: Relay, i: int, id: SessionId, generation: int, frame: Frame, limited: bool)
    requires Owned(r) && i !in r.requests
    ensures var next := Admit(r, i, id, generation, frame, limited); Owned(next) && (Exclusive(r) ==> Exclusive(next))
  {
    if frame.SyncFrame? {
      StartKeepsOwned(r, i, Slot(id, frame.target), generation);
    }
    var next := Admit(r, i, id, generation, frame, limited);
    if Exclusive(r) {
      forall j | j in next.requests && Works(next.requests[j]) && !next.requests[j].aborted ensures Holds(next, j) {
        assert j in r.requests ==> Holds(r, j);
      }
    }
  }

  lemma UpstreamKeeps(r: Relay, i: int, upstream: Upstream)
    requires Owned(r) && i in r.requests && Works(r.requests[i])
    ensures var next := AfterUpstream(r, i, upstream); Owned(next) && (Exclusive(r) ==> Exclusive(next))
    ensures var next := AfterError(r, i, upstream); Owned(next) && (Exclusive(r) ==> Exclusive(next))
  {
    FinishKeeps(r, i);
    ReplyKeeps(r, i, Failed, false);
    ReplyKeeps(r, i, Synced, true);
  }

  lemma LimiterKeepsOwned(r: Relay, i: int, limiter: LimiterAnswer)
    requires Owned(r) && i in r.requests && r.requests[i].stage.Limiting?
    ensures Owned(AfterLimiter(r, i, limiter))
  {
    FinishKeeps(r, i);
    StartKeepsOwned(r, i, r.requests[i].slot, r.requests[i].generation);
  }

  lemma StepKeepsOwned(r: Relay, e: Event)
    requires Owned(r)
    ensures Owned(Step(r, e))
    ensures Exclusive(r) && !e.LimiterAnswers? ==> Exclusive(Step(r, e))
  {
    match e {
      case SessionChanges(id, session) =>
        assert Exclusive(r) ==> forall i :: Holds(r, i) ==> Holds(Step(r, e), i);
      case StreamSync(i, id, generation, frame, limited) =>
        if i !in r.requests { AdmitKeeps(r, i, id, generation, frame, limited); }
      case LimiterAnswers(i, limiter) =>
        if i in r.requests && r.requests[i].stage.Limiting? { LimiterKeepsOwned(r, i, limiter); }
      case UpstreamAnswers(i, upstream) =>
        if i in r.requests && r.requests[i].stage.Calling? { UpstreamKeeps(r, i, upstream); }
      case SendEnds(i, sent) =>
        if i in r.requests && r.requests[i].stage.Replying? {
          UpstreamKeeps(r, i, Failure);
          FinishKeeps(r, i);
        }
      case SessionCloses(id, generation) => AbortKeeps(r, SlotsOf(r, id, generation));
      case Unregister => AbortKeeps(r, r.inFlight.Keys);
    }
  }

  lemma ReplyKeepsAnsweredOnce(r: Relay, i: int, kind: Kind, good: bool)
    requires AnsweredOnce(r) && i in r.requests && AfterCall(kind) && (good <==> kind == Synced)
    requires r.requests[i].stage.Calling? || (r.requests[i].stage == Replying(true) && kind == Failed)
    ensures AnsweredOnce(Reply(r, i, kind, good))
  {
    forall k | 0 <= k < |r.answers| ensures Follows(r.answers[k], Answer(i, kind)) {
      assert r.answers[k].request == i ==> AnswerFits(r.answers[k].kind, r.requests[i].stage);
    }
  }

  lemma FinishKeepsAnsweredOnce(r: Relay, i: int)
    requires AnsweredOnce(r) && i in r.requests
    ensures AnsweredOnce(Finish(r, i))
  {
  }

  lemma LimiterKeepsAnsweredOnce(r: Relay, i: int, limiter: LimiterAnswer)
    requires AnsweredOnce(r) && i in r.requests && r.requests[i].stage.Limiting?
    ensures AnsweredOnce(AfterLimiter(r, i, limiter))
  {
    forall k | 0 <= k < |r.answers| ensures r.answers[k].request != i {
      assert r.answers[k].request == i ==> AnswerFits(r.answers[k].kind, r.requests[i].stage);
    }
  }

  lemma AdmitKeepsAnsweredOnce(r: Relay, i: int, id: SessionId, generation: int, frame: Frame, limited: bool)
    requires AnsweredOnce(r) && i !in r.requests
    requires forall k :: 0 <= k < |r.answers| ==> r.answers[k].request != i
    ensures AnsweredOnce(Admit(r, i, id, generation, frame, limited))
  {
  }

  lemma AbortKeepsAnsweredOnce(r: Relay, slots: set<Slot>)
    requires AnsweredOnce(r)
    ensures AnsweredOnce(AbortThese(r, slots))
  {
  }

  lemma SendKeepsAnsweredOnce(r: Relay, i: int, sent: bool)
    requires AnsweredOnce(r) && i in r.requests && r.requests[i].stage.Replying?
    ensures AnsweredOnce(AfterSend(r, i, sent))
  {
    FinishKeepsAnsweredOnce(r, i);
    if r.requests[i].stage.good {
      ReplyKeepsAnsweredOnce(r, i, Failed, false);
    }
  }

  lemma UpstreamKeepsAnsweredOnce(r: Relay, i: int, upstream: Upstream)
    requires AnsweredOnce(r) && i in r.requests && r.requests[i].stage.Calling?
    ensures AnsweredOnce(AfterUpstream(r, i, upstream))
  {
    FinishKeepsAnsweredOnce(r, i);
    ReplyKeepsAnsweredOnce(r, i, Failed, false);
    ReplyKeepsAnsweredOnce(r, i, Synced, true);
  }

  lemma StepKeepsAnsweredOnce(r: Relay, e: Event)
    requires AnsweredOnce(r)
    ensures AnsweredOnce(Step(r, e))
  {
    match e {
      case StreamSync(i, id, generation, frame, limited) =>
        if i !in r.requests && (forall k :: 0 <= k < |r.answers| ==> r.answers[k].request != i) {
          AdmitKeepsAnsweredOnce(r, i, id, generation, frame, limited);
        }
      case LimiterAnswers(i, limiter) =>
        if i in r.requests && r.requests[i].stage.Limiting? { LimiterKeepsAnsweredOnce(r, i, limiter); }
      case UpstreamAnswers(i, upstream) =>
        if i in r.requests && r.requests[i].stage.Calling? { UpstreamKeepsAnsweredOnce(r, i, upstream); }
      case SendEnds(i, sent) =>
        if i in r.requests && r.requests[i].stage.Replying? { SendKeepsAnsweredOnce(r, i, sent); }
      case SessionCloses(id, generation) => AbortKeepsAnsweredOnce(r, SlotsOf(r, id, generation));
      case Unregister => AbortKeepsAnsweredOnce(r, r.inFlight.Keys);
      case SessionChanges(_, _) =>
    }
  }

  /** A request that waited for the limiter takes a slot that another one at work has taken meanwhile. */
  predicate Overtakes(r: Relay, e: Event) {
    e.LimiterAnswers? && e.limiter == Allowed && e.i in r.requests && r.requests[e.i].stage.Limiting?
    && r.requests[e.i].slot in r.inFlight
  }

  /**
   * There is at most one request at work for each session and target, unless one that waited for
   * the limiter overtakes another: exactly then there are two.
   */
  lemma ExclusiveUnlessOvertaken(r: Relay, e: Event)
    requires Owned(r) && Exclusive(r)
    ensures Exclusive(Step(r, e)) <==> !Overtakes(r, e)
  {
    StepKeepsOwned(r, e);
    if e.LimiterAnswers? && e.i in r.requests && r.requests[e.i].stage.Limiting? {
      LimiterOvertakes(r, e.i, e.limiter);
    }
  }

  lemma LimiterOvertakes(r: Relay, i: int, limiter: LimiterAnswer)
    requires Owned(r) && Exclusive(r) && i in r.requests && r.requests[i].stage.Limiting?
    ensures Exclusive(AfterLimiter(r, i, limiter)) <==> !(limiter == Allowed && r.requests[i].slot in r.inFlight)
  {
    var next, slot := AfterLimiter(r, i, limiter), r.requests[i].slot;
    FinishKeeps(r, i);
    if limiter == Allowed && slot in r.inFlight {
      var holder := r.inFlight[slot];
      assert holder != i && Works(next.requests[holder]) && !Holds(next, holder);
    } else if limiter == Allowed {
      forall j | j in next.requests && Works(next.requests[j]) && !next.requests[j].aborted ensures Holds(next, j) {
        assert j != i ==> Holds(r, j);
      }
    } else {
      assert next.requests == Finish(r, i).requests && next.inFlight == Finish(r, i).inFlight;
      assert forall j :: Holds(Finish(r, i), j) ==> Holds(next, j);
    }
  }

  /** Only a request that holds its slot on a live connection is told of its outcome, and that one is not aborted. */
  lemma OnlyCurrentRequestsAreTold(r: Relay, e: Event)
    requires Owned(r) && |r.answers| < |Step(r, e).answers| && AfterCall(Step(r, e).answers[|r.answers|].kind)
    ensures var i := Step(r, e).answers[|r.answers|].request;
            IsCurrent(r, i) && !r.requests[i].aborted && Works(r.requests[i])
  {
  }

  // --- Whole runs ---

  const IDLE := Relay(map[], map[], map[], [])

  function Run(r: Relay, events: seq<Event>): Relay
    decreases |events|
  {
    if events == [] then r else Run(Step(r, events[0]), events[1..])
  }

  lemma {:induction false} RunKeeps(r: Relay, events: seq<Event>)
    requires Good(r)
    ensures Good(Run(r, events))
    decreases |events|
  {
    if events != [] {
      StepKeepsOwned(r, events[0]);
      StepKeepsAnsweredOnce(r, events[0]);
      RunKeeps(Step(r, events[0]), events[1..]);
    }
  }

  ghost predicate NoLimiter(events: seq<Event>) {
    forall k :: 0 <= k < |events| && events[k].StreamSync? ==> !events[k].limited
  }

  ghost predicate NoneLimiting(r: Relay) {
    forall i :: i in r.requests ==> !r.requests[i].stage.Limiting?
  }

  /** Wired without a rate limiter, the relay never has two requests at work for one session and target. */
  lemma {:induction false} ExclusiveWithoutLimiter(r: Relay, events: seq<Event>)
    requires Good(r) && Exclusive(r) && NoneLimiting(r) && NoLimiter(events)
    ensures Exclusive(Run(r, events))
    decreases |events|
  {
    if events != [] {
      var next := Step(r, events[0]);
      StepKeepsOwned(r, events[0]);
      StepKeepsAnsweredOnce(r, events[0]);
      ExclusiveUnlessOvertaken(r, events[0]);
      assert !Overtakes(r, events[0]) && NoneLimiting(next);
      ExclusiveWithoutLimiter(next, events[1..]);
    }
  }

  lemma IdleIsGood()
    ensures Good(IDLE) && Exclusive(IDLE) && NoneLimiting(IDLE)
  {
  }

  /** From the start, whatever comes in: slots and answers are right, and without a limiter each slot is exclusive. */
  lemma EveryRunIsGood(events: seq<Event>)
    ensures Good(Run(IDLE, events))
    ensures NoLimiter(events) ==> Exclusive(Run(IDLE, events))
  {
    IdleIsGood();
    RunKeeps(IDLE, events);
    if NoLimiter(events) {
      ExclusiveWithoutLimiter(IDLE, events);
    }
  }

  /** A request holds no slot, and has not begun to wait for the limiter. */
  ghost predicate StaysReleased(r: Relay, next: Relay, i: int) {
    && i in r.requests && i in next.requests && !Holds(next, i)
    && (!r.requests[i].stage.Limiting? ==> !next.requests[i].stage.Limiting?)
  }

  lemma AdmitReleases(r: Relay, i: int, j: int, id: SessionId, generation: int, frame: Frame, limited: bool)
    requires i in r.requests && !Holds(r, i) && j !in r.requests
    ensures StaysReleased(r, Admit(r, j, id, generation, frame, limited), i)
  {
  }

  lemma LimiterReleases(r: Relay, i: int, j: int, limiter: LimiterAnswer)
    requires i in r.requests && !Holds(r, i) && j in r.requests && r.requests[j].stage.Limiting?
    ensures var next := AfterLimiter(r, j, limiter);
            if j == i && limiter == Allowed then Holds(next, i) && next.requests[i].stage.Calling?
            else StaysReleased(r, next, i)
  {
  }

  lemma ReplyReleases(r: Relay, i: int, j: int, upstream: Upstream)
    requires i in r.requests && !Holds(r, i) && j in r.requests
    ensures StaysReleased(r, AfterUpstream(r, j, upstream), i) && StaysReleased(r, Finish(r, j), i)
  {
  }

  /**
   * Of the requests that hold no slot, only one that waits for the limiter can get one: exactly if it
   * is let through.
   */
  lemma ReleasedStaysReleased(r: Relay, e: Event, i: int)
    requires Owned(r) && i in r.requests && !Holds(r, i)
    ensures i in Step(r, e).requests
    ensures Holds(Step(r, e), i) <==> e == LimiterAnswers(i, Allowed) && r.requests[i].stage.Limiting?
    ensures !r.requests[i].stage.Limiting? ==> !Step(r, e).requests[i].stage.Limiting?
  {
    match e {
      case StreamSync(j, id, generation, frame, limited) =>
        if j !in r.requests { AdmitReleases(r, i, j, id, generation, frame, limited); }
      case LimiterAnswers(j, limiter) =>
        if j in r.requests && r.requests[j].stage.Limiting? { LimiterReleases(r, i, j, limiter); }
      case UpstreamAnswers(j, upstream) => if j in r.requests { ReplyReleases(r, i, j, upstream); }
      case SendEnds(j, sent) => if j in r.requests { ReplyReleases(r, i, j, Failure); }
      case _ =>
    }
  }

  lemma {:induction false} ReleasedForGood(r: Relay, events: seq<Event>, i: int)
    requires Owned(r) && i in r.requests && !Holds(r, i)
    requires r.requests[i].stage.Limiting? ==> forall k :: 0 <= k < |events| ==> events[k] != LimiterAnswers(i, Allowed)
    ensures i in Run(r, events).requests && !Holds(Run(r, events), i)
    decreases |events|
  {
    if events != [] {
      ReleasedStaysReleased(r, events[0], i);
      StepKeepsOwned(r, events[0]);
      ReleasedForGood(Step(r, events[0]), events[1..], i);
    }
  }

  lemma CloseReleases(r: Relay, id: SessionId, generation: int, i: int)
    requires Owned(r) && i in r.requests && r.requests[i].slot.session == id && r.requests[i].generation == generation
    ensures var next := Step(r, SessionCloses(id, generation));
            i in next.requests && !Holds(next, i) && next.requests[i].stage == r.requests[i].stage
  {
  }

  /**
   * Once its session has closed, a request never holds a slot again, whatever happens later, unless
   * it was waiting for the limiter then and is let through after all.
   */
  lemma ClosedRequestsHoldNothing(r: Relay, id: SessionId, generation: int, i: int, later: seq<Event>)
    requires Owned(r) && i in r.requests && r.requests[i].slot.session == id && r.requests[i].generation == generation
    requires r.requests[i].stage.Limiting? ==> forall k :: 0 <= k < |later| ==> later[k] != LimiterAnswers(i, Allowed)
    ensures !Holds(Run(Step(r, SessionCloses(id, generation)), later), i)
  {
    CloseReleases(r, id, generation, i);
    StepKeepsOwned(r, SessionCloses(id, generation));
    ReleasedForGood(Step(r, SessionCloses(id, generation)), later, i);
  }

  /** Without a limiter there is no exception. */
  lemma ClosedForGoodWithoutLimiter(r: Relay, id: SessionId, generation: int, i: int, later: seq<Event>)
    requires Owned(r) && NoneLimiting(r)
    requires i in r.requests && r.requests[i].slot.session == id && r.requests[i].generation == generation
    ensures !Holds(Run(Step(r, SessionCloses(id, generation)), later), i)
  {
    ClosedRequestsHoldNothing(r, id, generation, i, later);
  }

  /** With one, a request of a closed session takes its slot and calls upstream, and keeps both until the call ends. */
  lemma ClosedRequestIsLetThrough(r: Relay, id: SessionId, generation: int, i: int)
    requires Owned(r) && i in r.requests && r.requests[i].slot.session == id && r.requests[i].generation == generation
    requires r.requests[i].stage.Limiting?
    ensures var next := Step(Step(r, SessionCloses(id, generation)), LimiterAnswers(i, Allowed));
            Holds(next, i) && next.requests[i].stage.Calling? && !next.requests[i].aborted
  {
    CloseReleases(r, id, generation, i);
    StepKeepsOwned(r, SessionCloses(id, generation));
    ReleasedStaysReleased(Step(r, SessionCloses(id, generation)), LimiterAnswers(i, Allowed), i);
  }

  const SOMEONE := SessionId("s")
  const SOMEWHERE: ClientTarget := Channel("c")

  /** With one, two requests that ask while the limiter is thinking both get to work. */
  lemma TwoAtWorkWithLimiter()
    ensures var r := Run(IDLE, [SessionChanges(SOMEONE, Session(1, ReadyState, true)),
                                StreamSync(1, SOMEONE, 1, SyncFrame(SOMEWHERE), true),
                                StreamSync(2, SOMEONE, 1, SyncFrame(SOMEWHERE), true),
                                LimiterAnswers(1, Allowed), LimiterAnswers(2, Allowed)]);
            && 1 in r.requests && 2 in r.requests && r.requests[1].slot == r.requests[2].slot
            && Works(r.requests[1]) && Works(r.requests[2]) && !r.requests[1].aborted && !r.requests[2].aborted
  {
    var live := Session(1, ReadyState, true);
    var slot := Slot(SOMEONE, SOMEWHERE);
    var a := SessionChanges(SOMEONE, live);
    var b := StreamSync(1, SOMEONE, 1, SyncFrame(SOMEWHERE), true);
    var c := StreamSync(2, SOMEONE, 1, SyncFrame(SOMEWHERE), true);
    var d, e := LimiterAnswers(1, Allowed), LimiterAnswers(2, Allowed);
    var r1 := Step(IDLE, a);
    var r2 := Step(r1, b);
    var r3 := Step(r2, c);
    var r4 := Step(r3, d);
    var r5 := Step(r4, e);
    assert r3.requests[1] == r3.requests[2] == Request(slot, 1, Limiting, false);
    assert [a, b, c, d, e][1..] == [b, c, d, e] && [b, c, d, e][1..] == [c, d, e] && [c, d, e][1..] == [d, e];
    assert [d, e][1..] == [e] && [e][1..] == [];
    assert Run(IDLE, [a, b, c, d, e]) == Run(r1, [b, c, d, e]) == Run(r2, [c, d, e]);
    assert Run(r2, [c, d, e]) == Run(r3, [d, e]) == Run(r4, [e]) == Run(r5, []);
  }

  // --- The same steps on state updated in place ---

  function Aborted(r: Relay, slot: Slot): Relay
    requires slot in r.inFlight && r.inFlight[slot] in r.requests
  {
    var i := r.inFlight[slot];
    r.(requests := r.requests[i := r.requests[i].(aborted := true)], inFlight := r.inFlight - {slot})
  }

  lemma AbortsNone(r: Relay)
    ensures AbortThese(r, {}) == r
  {
    assert AbortThese(r, {}).requests == r.requests;
  }

  lemma AbortsAdd(r: Relay, done: set<Slot>, slot: Slot)
    requires slot in r.inFlight && slot !in done && r.inFlight[slot] in r.requests
             && r.requests[r.inFlight[slot]].slot == slot
    ensures var m, i := AbortThese(r, done), r.inFlight[slot];
            && slot in m.inFlight && m.inFlight[slot] == i && i in m.requests
            && AbortThese(r, done + {slot}) == Aborted(m, slot)
  {
    var m, i, all := AbortThese(r, done), r.inFlight[slot], AbortThese(r, done + {slot});
    var one := m.requests[i := m.requests[i].(aborted := true)];
    assert m.inFlight - {slot} == r.inFlight - (done + {slot});
    assert forall j :: j in r.requests ==> all.requests[j] == one[j];
    assert all.requests == one;
  }

  /** A number that no request and no answer has had. */
  ghost predicate IsUnused(r: Relay, i: int) {
    i !in r.requests && forall k :: 0 <= k < |r.answers| ==> r.answers[k].request != i
  }

  /** Other requests, sessions and earlier answers stay as they are. */
  ghost predicate KeepsOthers(r: Relay, next: Relay, i: int) {
    && next.sessions == r.sessions && r.answers <= next.answers
    && (forall j :: j in r.requests && j != i ==> j in next.requests && next.requests[j] == r.requests[j])
  }

  class StreamMessagesRelay {
    var inFlight: map<Slot, int>
    var requests: map<int, Request>
    var sessions: map<SessionId, Session>
    var answers: seq<Answer>

    function State(): Relay
      reads this
    {
      Relay(inFlight, requests, sessions, answers)
    }

    ghost predicate Valid()
      reads this
    {
      Good(State())
    }

    constructor ()
      ensures Valid() && State() == IDLE
    {
      inFlight, requests, sessions, answers := map[], map[], map[], [];
    }

    method Send(i: int, kind: Kind)
      modifies this`answers
      ensures answers == old(answers) + [Answer(i, kind)]
    {
      answers := answers + [Answer(i, kind)];
    }

    /** Up to the first await: checks, and a slot unless the limiter has to be asked. */
    method AdmitFrame(i: int, id: SessionId, generation: int, frame: Frame, limited: bool)
      requires i !in requests
      modifies this
      ensures State() == Admit(old(State()), i, id, generation, frame, limited)
    {
      if id !in sessions || sessions[id].generation != generation || sessions[id].state == ClosedState {
        Send(i, CloseBadFrame);
        return;
      }
      if sessions[id].state != ReadyState || !sessions[id].connectedEventSent {
        Send(i, NotReady);
        return;
      }
      match frame {
        case TooLong => Send(i, CloseTooLong);
        case Unreadable(hasRequestId) => Send(i, if hasRequestId then BadRequest else CloseBadFrame);
        case SyncFrame(target) =>
          var key := Slot(id, target);
          if key in inFlight {
            Send(i, Duplicate);
            return;
          }
          if limited {
            requests := requests[i := Request(key, generation, Limiting, false)];
            return;
          }
          requests := requests[i := Request(key, generation, Calling, false)];
          inFlight := inFlight[key := i];
      }
    }

    method GoOnAfterLimiter(i: int, limiter: LimiterAnswer)
      requires i in requests
      modifies this
      ensures State() == AfterLimiter(old(State()), i, limiter)
    {
      if limiter != Allowed {
        Release(i);
        Send(i, if limiter == Denied then Limited else Unavailable);
        return;
      }
      var request := requests[i];
      requests := requests[i := Request(request.slot, request.generation, Calling, false)];
      inFlight := inFlight[request.slot := i];
    }

    /** A request is over; it frees its slot only if the slot is still its own. */
    method Release(i: int)
      requires i in requests
      modifies this`requests, this`inFlight
      ensures State() == Finish(old(State()), i)
    {
      var slot := requests[i].slot;
      requests := requests[i := requests[i].(stage := Ended)];
      if slot in inFlight && inFlight[slot] == i {
        inFlight := inFlight - {slot};
      }
    }

    method Fail(i: int, upstream: Upstream)
      requires i in requests
      modifies this
      ensures State() == AfterError(old(State()), i, upstream)
    {
      if requests[i].aborted || !IsCurrent(State(), i) || upstream == CancelledCall {
        Release(i);
        return;
      }
      Send(i, Failed);
      requests := requests[i := requests[i].(stage := Replying(false))];
    }

    method GoOnAfterUpstream(i: int, upstream: Upstream)
      requires i in requests
      modifies this
      ensures State() == AfterUpstream(old(State()), i, upstream)
    {
      if upstream != Page {
        Fail(i, upstream);
      } else if !IsCurrent(State(), i) {
        Release(i);
      } else {
        Send(i, Synced);
        requests := requests[i := requests[i].(stage := Replying(true))];
      }
    }

    method GoOnAfterSend(i: int, sent: bool)
      requires i in requests && requests[i].stage.Replying?
      modifies this
      ensures State() == AfterSend(old(State()), i, sent)
    {
      if !sent && requests[i].stage.good {
        Fail(i, Failure);
      } else {
        Release(i);
      }
    }

    // --- The same, from one valid state to the next ---

    /** A new frame displaces no request that holds a slot, and gets at most one answer at once. */
    method HandleStreamSync(i: int, id: SessionId, generation: int, frame: Frame, limited: bool)
      requires Valid() && IsUnused(State(), i)
      modifies this
      ensures Valid() && State() == Admit(old(State()), i, id, generation, frame, limited)
      ensures KeepsOthers(old(State()), State(), i) && |answers| <= |old(answers)| + 1
      ensures i in requests <==> |answers| == |old(answers)|
      ensures forall slot :: slot in old(inFlight) ==> slot in inFlight && inFlight[slot] == old(inFlight)[slot]
    {
      AdmitKeeps(State(), i, id, generation, frame, limited);
      AdmitKeepsAnsweredOnce(State(), i, id, generation, frame, limited);
      AdmitFrame(i, id, generation, frame, limited);
    }

    /** A request that the limiter lets through is at work, also if its slot was taken meanwhile. */
    method LimiterAnswered(i: int, limiter: LimiterAnswer)
      requires Valid() && i in requests && requests[i].stage.Limiting?
      modifies this
      ensures Valid() && State() == AfterLimiter(old(State()), i, limiter)
      ensures KeepsOthers(old(State()), State(), i)
      ensures Holds(State(), i) <==> limiter == Allowed
    {
      LimiterKeepsOwned(State(), i, limiter);
      LimiterKeepsAnsweredOnce(State(), i, limiter);
      GoOnAfterLimiter(i, limiter);
    }

    /** An answer goes out only for a current request that is not aborted; one that is over holds nothing. */
    method UpstreamAnswered(i: int, upstream: Upstream)
      requires Valid() && i in requests && requests[i].stage.Calling?
      modifies this
      ensures Valid() && State() == AfterUpstream(old(State()), i, upstream)
      ensures KeepsOthers(old(State()), State(), i)
      ensures i in requests && (requests[i].stage.Ended? ==> !Holds(State(), i))
      ensures |answers| > |old(answers)| <==> old(IsCurrent(State(), i)) && upstream != CancelledCall
      ensures |answers| > |old(answers)| ==> !old(requests)[i].aborted
    {
      UpstreamKeeps(State(), i, upstream);
      UpstreamKeepsAnsweredOnce(State(), i, upstream);
      GoOnAfterUpstream(i, upstream);
    }

    /** A second answer goes out only if a page could not be sent and the request is current still. */
    method SendEnded(i: int, sent: bool)
      requires Valid() && i in requests && requests[i].stage.Replying?
      modifies this
      ensures Valid() && State() == AfterSend(old(State()), i, sent)
      ensures KeepsOthers(old(State()), State(), i)
      ensures i in requests && (requests[i].stage.Ended? ==> !Holds(State(), i))
      ensures |answers| > |old(answers)| <==> !sent && old(requests)[i].stage.good && old(IsCurrent(State(), i))
    {
      UpstreamKeeps(State(), i, Failure);
      FinishKeeps(State(), i);
      SendKeepsAnsweredOnce(State(), i, sent);
      GoOnAfterSend(i, sent);
    }

    method AbortHolder(slot: Slot)
      requires slot in inFlight && inFlight[slot] in requests
      modifies this`requests, this`inFlight
      ensures State() == Aborted(old(State()), slot)
    {
      var i := inFlight[slot];
      requests := requests[i := requests[i].(aborted := true)];
      inFlight := inFlight - {slot};
    }

    /** Visits the given slots in some order; aborting one does not disturb the others. */
    method AbortSlots(slots: set<Slot>)
      requires Valid() && slots <= inFlight.Keys
      modifies this`requests, this`inFlight
      ensures State() == AbortThese(old(State()), slots)
    {
      ghost var r := State();
      var pending := slots;
      AbortsNone(r);
      while pending != {}
        invariant pending <= slots && State() == AbortThese(r, slots - pending)
        decreases |pending|
      {
        var slot := AnyOf(pending);
        AbortsAdd(r, slots - pending, slot);
        assert slots - pending + {slot} == slots - (pending - {slot});
        pending := pending - {slot};
        AbortHolder(slot);
      }
      assert slots - pending == slots;
    }

    method AbortSessionRequests(id: SessionId, generation: int)
      requires Valid()
      modifies this`requests, this`inFlight
      ensures Valid() && State() == Step(old(State()), SessionCloses(id, generation))
    {
      StepKeepsOwned(State(), SessionCloses(id, generation));
      StepKeepsAnsweredOnce(State(), SessionCloses(id, generation));
      AbortSlots(set slot | slot in inFlight && slot.session == id
                 && requests[inFlight[slot]].generation == generation);
    }

    method UnregisterRelay()
      requires Valid()
      modifies this`requests, this`inFlight
      ensures Valid() && State() == Step(old(State()), Unregister) && inFlight == map[]
    {
      StepKeepsOwned(State(), Unregister);
      StepKeepsAnsweredOnce(State(), Unregister);
      AbortSlots(inFlight.Keys);
    }
  }
}
