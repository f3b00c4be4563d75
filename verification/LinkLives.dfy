/** How the connection comes and goes, and what becomes of each request: told event by event and over runs. */
module LinkLives {
  import opened Messages
  import opened AuthenticatedRealtimeSession

  // --- Connecting ---

  /** An awaited connected event is what the loop needs; one that cannot be read ends the attempt for good. */
  lemma ConnectedExactly(l: Link, s: int, generation: Option<string>)
    ensures Step(l, ConnectedEvent(s, generation)).loop ==
            if !(l.loop.Waiting? && l.loop.awaited == s && l.socket == Some(s)) then l.loop
            else if generation.None? then Failing(l.loop.attempt, true)
            else Resolved(l.loop.attempt, s, generation.value)
  {
  }

  /** A ticket opens a socket that has a number of its own, unless the connection was given up meanwhile. */
  lemma TicketExactly(l: Link, issued: bool, fatal: bool)
    ensures var next := Step(l, Ticket(issued, fatal));
            if !l.loop.Issuing? then next == l
            else if issued && !l.aborted then
              && next.attempts == l.attempts + 1 && next.socket == Some(next.attempts)
              && next.loop == Waiting(l.loop.attempt, next.attempts)
            else next.socket == l.socket && next.loop == Failing(l.loop.attempt, !issued && fatal)
  {
  }

  /** What ends an attempt: time, the closing of its socket, or giving up; the loop goes on to the next, or ends. */
  lemma AttemptEndsExactly(l: Link, e: Event)
    requires l.loop.Issuing? || l.loop.Waiting?
    ensures e == Timeout ==> Step(l, e).loop == Failing(l.loop.attempt, false)
    ensures e == CallDisconnect ==> Step(l, e).loop == Failing(l.loop.attempt, false)
    ensures e.Close? ==>
              Step(l, e).loop ==
              if l.loop.Waiting? && l.loop.awaited == e.from then Failing(l.loop.attempt, false) else l.loop
  {
  }

  /** After a failed attempt its socket is dropped; there are four attempts, unless one is fatal or it was given up. */
  lemma GivesUpExactly(l: Link)
    requires l.loop.Failing? || (l.loop.Resolved? && l.socket != Some(l.loop.awaited))
    ensures var next := Step(l, Continue);
            && next.socket == None
            && if l.aborted || l.loop.attempt == 3 || (l.loop.Failing? && l.loop.fatal)
               then next.state == Closed && next.loop == Finishing
               else next.state == l.state && next.loop == Delaying(l.loop.attempt)
  {
  }

  lemma DelayEndsExactly(l: Link)
    ensures l.loop.Delaying? ==>
              Step(l, Continue).loop == if l.aborted then Finishing else Issuing(l.loop.attempt + 1)
    ensures l.loop.Delaying? ==> Step(l, CallDisconnect).loop == Finishing
    ensures l.loop.Finishing? ==> Step(l, Continue).loop == NoLoop
  {
  }

  /** Connecting starts a loop unless there is one or the connection is ready; giving up before that is forgotten. */
  lemma ConnectExactly(l: Link)
    ensures var next := Step(l, CallConnect);
            if l.state == Ready || l.loop != NoLoop then next == l
            else next.loop == Issuing(0) && next.state == Connecting && !next.explicitlyClosed
                 && next.aborted == (l.aborted && !l.explicitlyClosed)
  {
  }

  /** A connection that was lost, and not given up, is tried for again as soon as no loop is at it. */
  lemma ReconnectsExactly(l: Link)
    ensures var next := Step(l, Microtask);
            if !l.explicitlyClosed && l.socket == None && l.state != Ready && l.loop == NoLoop
            then next.loop == Issuing(0) && next.state == Connecting else next == l
  {
  }

  // --- What stays as it is ---

  /** A loop is started. */
  predicate Starts(l: Link, e: Event) {
    && l.loop == NoLoop && l.state != Ready
    && (e == CallConnect || (e == Microtask && !l.explicitlyClosed && l.socket == None))
  }

  predicate OpensSocket(l: Link, e: Event) {
    e.Ticket? && e.issued && l.loop.Issuing? && !l.aborted
  }

  predicate GetsReady(l: Link, e: Event) {
    e == Continue && l.loop.Resolved? && l.socket == Some(l.loop.awaited)
  }

  predicate FailsAttempt(l: Link, e: Event) {
    e == Continue && (l.loop.Failing? || (l.loop.Resolved? && l.socket != Some(l.loop.awaited)))
  }

  /** The last attempt there is: the fourth, a fatal one, or one after giving up. */
  predicate IsLastAttempt(l: Link) {
    l.aborted || ((l.loop.Failing? || l.loop.Resolved?) && l.loop.attempt == 3) || (l.loop.Failing? && l.loop.fatal)
  }

  predicate LosesSocket(l: Link, e: Event) {
    e == CallDisconnect || (e.Close? && l.socket == Some(e.from))
  }

  /** All that makes up the connection. */
  predicate SameConnection(l: Link, next: Link) {
    && next.state == l.state && next.socket == l.socket && next.attempts == l.attempts && next.loop == l.loop
    && next.serverGeneration == l.serverGeneration
    && next.explicitlyClosed == l.explicitlyClosed && next.aborted == l.aborted
  }

  lemma RequestsLeaveConnection(l: Link, e: Event)
    requires e.CallRequest? || e.Abort? || e.Answer?
    ensures SameConnection(l, Step(l, e))
  {
    match e {
      case CallRequest(n, id, cancelled, emitFails) =>
        assert SameConnection(l, RequestSync(l, n, id, cancelled, emitFails));
      case Abort(n) => assert SameConnection(l, AbortRequest(l, n));
      case Answer(s, id) => assert SameConnection(l, AnswerArrives(l, s, id));
    }
  }

  /** What a closing or giving up leaves of the connection. */
  lemma LosingExactly(l: Link, e: Event)
    requires e.Close? || e == CallDisconnect
    ensures var next := Step(l, e);
            && next.attempts == l.attempts
            && next.socket == (if LosesSocket(l, e) then None else l.socket)
            && next.serverGeneration == (if LosesSocket(l, e) then None else l.serverGeneration)
            && next.explicitlyClosed == (e == CallDisconnect || l.explicitlyClosed)
            && next.aborted == (e == CallDisconnect || l.aborted)
            && next.state == (if !LosesSocket(l, e) then l.state
                              else if e == CallDisconnect || l.explicitlyClosed then Closed else Connecting)
  {
  }

  /** The loop goes on after an await. */
  lemma ContinuesExactly(l: Link)
    ensures var next := Step(l, Continue);
            && next.attempts == l.attempts && next.socket == (if FailsAttempt(l, Continue) then None else l.socket)
            && next.serverGeneration == (if GetsReady(l, Continue) then Some(l.loop.generation) else l.serverGeneration)
            && next.explicitlyClosed == l.explicitlyClosed && next.aborted == l.aborted
            && next.state == (if GetsReady(l, Continue) then Ready
                              else if FailsAttempt(l, Continue) && IsLastAttempt(l) then Closed else l.state)
  {
  }

  /** A ticket opens a socket, and changes nothing else of the connection. */
  lemma TicketOpens(l: Link, e: Event)
    requires e.Ticket?
    ensures var next := Step(l, e);
            && next.attempts == l.attempts + (if OpensSocket(l, e) then 1 else 0)
            && next.socket == (if OpensSocket(l, e) then Some(l.attempts + 1) else l.socket)
            && next.serverGeneration == l.serverGeneration && next.state == l.state
            && next.explicitlyClosed == l.explicitlyClosed && next.aborted == l.aborted
  {
  }

  lemma AwaitedLeavesConnection(l: Link, e: Event)
    requires e.ConnectedEvent? || e.Timeout?
    ensures Step(l, e) == l.(loop := Step(l, e).loop)
  {
  }

  lemma StartsExactly(l: Link, e: Event)
    requires e == CallConnect || e == Microtask
    ensures var next := Step(l, e);
            && next.attempts == l.attempts && next.socket == l.socket && next.serverGeneration == l.serverGeneration
            && next.explicitlyClosed == (l.explicitlyClosed && !Starts(l, e))
            && next.aborted == (l.aborted && !(Starts(l, e) && l.explicitlyClosed))
            && next.state == (if Starts(l, e) then Connecting else l.state)
  {
  }

  /** State, socket, generation and flags change for these reasons only. */
  lemma ConnectionChangesExactly(l: Link, e: Event)
    ensures var next := Step(l, e);
            && next.attempts == l.attempts + (if OpensSocket(l, e) then 1 else 0)
            && next.socket == (if OpensSocket(l, e) then Some(l.attempts + 1)
                               else if FailsAttempt(l, e) || LosesSocket(l, e) then None else l.socket)
            && next.serverGeneration == (if GetsReady(l, e) then Some(l.loop.generation)
                                         else if LosesSocket(l, e) then None else l.serverGeneration)
            && next.explicitlyClosed == (e == CallDisconnect || (l.explicitlyClosed && !Starts(l, e)))
            && next.aborted == (e == CallDisconnect || (l.aborted && !(Starts(l, e) && l.explicitlyClosed)))
            && next.state == (if e == CallDisconnect then Closed
                              else if LosesSocket(l, e) then (if l.explicitlyClosed then Closed else Connecting)
                              else if Starts(l, e) then Connecting
                              else if GetsReady(l, e) then Ready
                              else if FailsAttempt(l, e) && IsLastAttempt(l) then Closed
                              else l.state)
  {
    if e.CallRequest? || e.Abort? || e.Answer? {
      RequestsLeaveConnection(l, e);
    } else if e.Close? || e == CallDisconnect {
      LosingExactly(l, e);
    } else if e == CallConnect || e == Microtask {
      StartsExactly(l, e);
    } else if e == Continue {
      ContinuesExactly(l);
    } else if e.Ticket? {
      TicketOpens(l, e);
    } else {
      AwaitedLeavesConnection(l, e);
    }
  }

  /** Where a loop stays that no event of its own has met. */
  lemma LoopStaysExactly(l: Link, e: Event)
    ensures GetsReady(l, e) ==> Step(l, e).loop == Finishing
    ensures e == Continue && (l.loop.NoLoop? || l.loop.Issuing? || l.loop.Waiting?) ==> Step(l, e).loop == l.loop
    ensures e == Timeout && !l.loop.Issuing? && !l.loop.Waiting? ==> Step(l, e).loop == l.loop
    ensures e == CallDisconnect && !l.loop.Issuing? && !l.loop.Waiting? && !l.loop.Delaying? ==>
              Step(l, e).loop == l.loop
    ensures e.Ticket? && !l.loop.Issuing? ==> Step(l, e).loop == l.loop
    ensures e.Close? && !l.loop.Waiting? ==> Step(l, e).loop == l.loop
    ensures e.CallRequest? || e.Abort? || e.Answer? ==> Step(l, e).loop == l.loop
  {
  }

  /** How many attempts have failed before this one. */
  predicate AttemptInRange(l: Link) {
    match l.loop
    case Issuing(a) => 0 <= a <= 3
    case Waiting(a, _) => 0 <= a <= 3
    case Resolved(a, _, _) => 0 <= a <= 3
    case Failing(a, _) => 0 <= a <= 3
    case Delaying(a) => 0 <= a < 3
    case _ => true
  }

  lemma AttemptStaysInRange(l: Link, e: Event)
    requires AttemptInRange(l)
    ensures AttemptInRange(Step(l, e))
  {
    LoopMoves(l, e);
  }

  /** The loop is moved by connecting, tickets, connected events, time, closings and giving up only. */
  lemma LoopMoves(l: Link, e: Event)
    ensures e.CallRequest? || e.Abort? || e.Answer? ==> Step(l, e).loop == l.loop
    ensures e.Close? ==>
              Step(l, e).loop == l.loop || (l.loop.Waiting? && Step(l, e).loop == Failing(l.loop.attempt, false))
    ensures e.CallDisconnect? ==> Step(l, e).loop == AbortedLoop(l.loop)
  {
  }

  /** In every run, no loop makes more than four attempts. */
  lemma {:induction false} FourAttemptsAtMost(l: Link, events: seq<Event>)
    requires AttemptInRange(l)
    ensures AttemptInRange(Run(l, events))
    decreases |events|
  {
    if events != [] {
      AttemptStaysInRange(l, events[0]);
      FourAttemptsAtMost(Step(l, events[0]), events[1..]);
    }
  }

  /** Given up: closed, without a socket, and no loop is on the way to a new one. */
  predicate IsGivenUp(l: Link) {
    && l.explicitlyClosed && l.aborted && l.state == Closed && l.socket == None
    && !l.loop.Issuing? && !l.loop.Waiting? && !l.loop.Delaying?
  }

  /** Once given up, the connection stays so until it is asked for again, whatever its sockets still report. */
  lemma {:induction false} GivenUpStays(l: Link, events: seq<Event>)
    requires IsGivenUp(l) && forall k :: 0 <= k < |events| ==> events[k] != CallConnect
    ensures IsGivenUp(Run(l, events))
    decreases |events|
  {
    if events != [] {
      assert events[0] != CallConnect;
      assert IsGivenUp(Step(l, events[0]));
      GivenUpStays(Step(l, events[0]), events[1..]);
    }
  }

  lemma DisconnectGivesUp(l: Link)
    ensures IsGivenUp(Step(l, CallDisconnect))
  {
  }

  // --- What becomes of a request ---

  datatype Fate = NotAsked | InFlight(id: RequestId, socket: Option<int>) | Got(outcome: Outcome)

  function FateOf(l: Link, n: int): Fate {
    if n in l.outcomes then Got(l.outcomes[n])
    else if n in l.requests then InFlight(l.requests[n].id, l.requests[n].socket)
    else NotAsked
  }

  /** Another request is under way with this id. */
  ghost predicate IsInUse(l: Link, id: RequestId) {
    exists n :: FateOf(l, n).InFlight? && FateOf(l, n).id == id
  }

  /** What an event makes of a request; sent requests wait for an answer over their own socket. */
  ghost function FateAfter(l: Link, e: Event, n: int): Fate {
    match FateOf(l, n)
    case NotAsked =>
      if !e.CallRequest? || e.n != n then NotAsked
      else if l.state == Ready && !IsInUse(l, e.id) && !e.cancelled && !e.emitFails then InFlight(e.id, l.socket)
      else Got(Rejected)
    case InFlight(id, socket) =>
      if e.Answer? && e.id == id && socket == Some(e.from) then Got(Answered(e.from))
      else if e == Abort(n) || e == CallDisconnect || (e.Close? && socket == Some(e.from)) then Got(Rejected)
      else InFlight(id, socket)
    case Got(outcome) => Got(outcome)
  }

  /** No request is forgotten: as long as it has not got its outcome, it is pending under its id. */
  ghost predicate NoneForgotten(l: Link) {
    forall n :: n in l.requests && n !in l.outcomes ==> IsUnderWay(l, n)
  }

  predicate IsUnderWay(l: Link, n: int)
    requires n in l.requests
  {
    l.requests[n].id in l.pending && l.pending[l.requests[n].id] == n
  }

  /** A request is under way exactly if it is pending, over the socket in use. */
  lemma UnderWayExactly(l: Link, n: int)
    requires Good(l) && NoneForgotten(l)
    ensures FateOf(l, n).InFlight? ==>
              && n in l.requests && n !in l.outcomes && IsUnderWay(l, n) && n in l.listening
              && l.state == Ready && l.socket.Some? && FateOf(l, n) == InFlight(l.requests[n].id, l.socket)
    ensures FateOf(l, n).NotAsked? ==> n !in l.requests
    ensures forall id :: id in l.pending && l.pending[id] == n ==> FateOf(l, n) == InFlight(id, l.socket)
  {
    assert SettledRight(l, n);
    if FateOf(l, n).InFlight? {
      assert IsUnderWay(l, n) && IsPending(l, l.requests[n].id, n);
    }
    forall id | id in l.pending && l.pending[id] == n ensures FateOf(l, n) == InFlight(id, l.socket) {
      assert IsPending(l, id, n);
    }
  }

  lemma InUseExactly(l: Link, id: RequestId)
    requires Good(l) && NoneForgotten(l)
    ensures IsInUse(l, id) <==> id in l.pending
  {
    if n :| FateOf(l, n).InFlight? && FateOf(l, n).id == id {
      UnderWayExactly(l, n);
    }
    if id in l.pending {
      UnderWayExactly(l, l.pending[id]);
      assert FateOf(l, l.pending[id]).InFlight?;
    }
  }

  /** Settling one pending request leaves all others where they are. */
  lemma SettledFates(l: Link, id: RequestId, o: Outcome, n: int)
    requires Good(l) && NoneForgotten(l) && id in l.pending
    ensures var next := Settle(Unpend(l, id), l.pending[id], o);
            && FateOf(next, n) == (if n == l.pending[id] then Got(o) else FateOf(l, n))
            && (n in next.requests && n !in next.outcomes ==> IsUnderWay(next, n))
  {
    UnderWayExactly(l, n);
    UnderWayExactly(l, l.pending[id]);
  }

  /** Rejecting all pending requests rejects exactly those under way. */
  lemma RejectedFates(l: Link, n: int)
    requires Good(l) && NoneForgotten(l)
    ensures var next := RejectAllPending(l);
            && FateOf(next, n) == (if FateOf(l, n).InFlight? then Got(Rejected) else FateOf(l, n))
            && (n in next.requests ==> n in next.outcomes)
  {
    UnderWayExactly(l, n);
    if FateOf(l, n).InFlight? {
      assert l.pending[l.requests[n].id] in Tokens(l.pending);
    }
    if n in Tokens(l.pending) {
      var id :| id in l.pending && l.pending[id] == n;
    }
  }

  /** What a step does to one request. */
  ghost predicate RightFate(l: Link, e: Event, n: int) {
    var next := Step(l, e);
    FateOf(next, n) == FateAfter(l, e, n) && (n in next.requests && n !in next.outcomes ==> IsUnderWay(next, n))
  }

  /** A request that is settled at once. */
  lemma RefusedFates(l: Link, e: Event, n: int)
    requires Good(l) && NoneForgotten(l) && e.CallRequest? && e.n !in l.requests
    requires l.state != Ready || e.id in l.pending || e.cancelled
    ensures RightFate(l, e, n)
  {
    UnderWayExactly(l, n);
    InUseExactly(l, e.id);
    assert SettledRight(l, e.n);
    assert Step(l, e) == Settle(l.(requests := l.requests[e.n := Request(e.id, None)]), e.n, Rejected);
  }

  lemma SentFates(l: Link, e: Event, n: int)
    requires Good(l) && NoneForgotten(l) && e.CallRequest? && e.n !in l.requests
    requires l.state == Ready && e.id !in l.pending && !e.cancelled
    ensures RightFate(l, e, n)
  {
    UnderWayExactly(l, n);
    InUseExactly(l, e.id);
    assert SettledRight(l, e.n);
    var sent := l.(requests := l.requests[e.n := Request(e.id, l.socket)],
                   pending := l.pending[e.id := e.n], listening := l.listening + {e.n});
    assert Step(l, e) == if e.emitFails then Settle(Unpend(sent, e.id), e.n, Rejected) else sent;
  }

  lemma RequestFates(l: Link, e: Event, n: int)
    requires Good(l) && NoneForgotten(l) && e.CallRequest?
    ensures RightFate(l, e, n)
  {
    UnderWayExactly(l, n);
    if e.n in l.requests {
      assert Step(l, e) == l;
    } else if l.state != Ready || e.id in l.pending || e.cancelled {
      RefusedFates(l, e, n);
    } else {
      SentFates(l, e, n);
    }
  }

  lemma AnswerFates(l: Link, e: Event, n: int)
    requires Good(l) && NoneForgotten(l) && e.Answer?
    ensures RightFate(l, e, n)
  {
    UnderWayExactly(l, n);
    if l.socket == Some(e.from) && e.id in l.pending {
      SettledFates(l, e.id, Answered(e.from), n);
      UnderWayExactly(l, l.pending[e.id]);
    }
  }

  lemma AbortFates(l: Link, e: Event, n: int)
    requires Good(l) && NoneForgotten(l) && e.Abort?
    ensures RightFate(l, e, n)
  {
    UnderWayExactly(l, n);
    if e.n in l.listening {
      SettledFates(l, l.requests[e.n].id, Rejected, n);
    }
  }

  /** Only these three matter to a request. */
  predicate SameRequests(l: Link, next: Link) {
    next.requests == l.requests && next.outcomes == l.outcomes && next.pending == l.pending
  }

  lemma SameFates(l: Link, next: Link, n: int)
    requires NoneForgotten(l) && SameRequests(l, next)
    ensures FateOf(next, n) == FateOf(l, n) && (n in next.requests && n !in next.outcomes ==> IsUnderWay(next, n))
  {
  }

  lemma RejectingTouches(l: Link, next: Link)
    requires SameRequests(l, next)
    ensures SameRequests(RejectAllPending(l), RejectAllPending(next))
  {
  }

  lemma CloseTouches(l: Link, s: int)
    ensures SameRequests(if l.socket == Some(s) then RejectAllPending(l) else l, SocketCloses(l, s))
  {
    var waiting := if l.loop.Waiting? && l.loop.awaited == s then l.(loop := Failing(l.loop.attempt, false)) else l;
    if l.socket == Some(s) {
      RejectingTouches(l, waiting.(socket := None, serverGeneration := None));
    }
  }

  lemma CloseFates(l: Link, e: Event, n: int)
    requires Good(l) && NoneForgotten(l) && e.Close?
    ensures RightFate(l, e, n)
  {
    UnderWayExactly(l, n);
    CloseTouches(l, e.from);
    var next := SocketCloses(l, e.from);
    assert Step(l, e) == next;
    if l.socket == Some(e.from) {
      RejectedFates(l, n);
      assert FateOf(next, n) == FateOf(RejectAllPending(l), n);
    } else {
      SameFates(l, next, n);
    }
  }

  lemma DisconnectFates(l: Link, n: int)
    requires Good(l) && NoneForgotten(l)
    ensures RightFate(l, CallDisconnect, n)
  {
    UnderWayExactly(l, n);
    RejectedFates(l, n);
    assert SameRequests(RejectAllPending(l), Step(l, CallDisconnect));
  }

  lemma ResumeTouchesNothing(l: Link)
    ensures SameRequests(l, Resume(l))
  {
  }

  lemma ConnectTouchesNothing(l: Link)
    ensures SameRequests(l, Connect(l)) && SameRequests(l, Reconnect(l))
  {
  }

  lemma WaitingTouchesNothing(l: Link, issued: bool, fatal: bool, s: int, g: Option<string>)
    ensures SameRequests(l, TicketArrives(l, issued, fatal)) && SameRequests(l, ConnectedArrives(l, s, g))
    ensures SameRequests(l, TimesOut(l))
  {
  }

  lemma ConnectingTouchesNothing(l: Link, e: Event)
    requires e.CallConnect? || e.Ticket? || e.ConnectedEvent? || e.Timeout? || e.Continue? || e.Microtask?
    ensures SameRequests(l, Step(l, e))
  {
    match e {
      case CallConnect => ConnectTouchesNothing(l);
      case Microtask => ConnectTouchesNothing(l);
      case Continue => ResumeTouchesNothing(l);
      case Ticket(issued, fatal) => WaitingTouchesNothing(l, issued, fatal, 0, None);
      case ConnectedEvent(s, g) => WaitingTouchesNothing(l, false, false, s, g);
      case Timeout => WaitingTouchesNothing(l, false, false, 0, None);
    }
  }

  lemma OtherFates(l: Link, e: Event, n: int)
    requires Good(l) && NoneForgotten(l)
    requires e.CallConnect? || e.Ticket? || e.ConnectedEvent? || e.Timeout? || e.Continue? || e.Microtask?
    ensures RightFate(l, e, n)
  {
    ConnectingTouchesNothing(l, e);
    var next := Step(l, e);
    SameFates(l, next, n);
    assert FateAfter(l, e, n) == FateOf(l, n);
  }

  /** Every request moves on as its own events and those of its socket say, and none is forgotten. */
  lemma StepFates(l: Link, e: Event, n: int)
    requires Good(l) && NoneForgotten(l)
    ensures RightFate(l, e, n)
  {
    match e {
      case CallRequest(_, _, _, _) => RequestFates(l, e, n);
      case Answer(_, _) => AnswerFates(l, e, n);
      case Abort(_) => AbortFates(l, e, n);
      case Close(_) => CloseFates(l, e, n);
      case CallDisconnect => DisconnectFates(l, n);
      case _ => OtherFates(l, e, n);
    }
  }

  lemma {:induction false} NoneIsForgotten(l: Link, events: seq<Event>)
    requires Good(l) && NoneForgotten(l)
    ensures Good(Run(l, events)) && NoneForgotten(Run(l, events))
    decreases |events|
  {
    if events != [] {
      StepKeeps(l, events[0]);
      forall n | n in Step(l, events[0]).requests && n !in Step(l, events[0]).outcomes
        ensures IsUnderWay(Step(l, events[0]), n)
      {
        StepFates(l, events[0], n);
      }
      NoneIsForgotten(Step(l, events[0]), events[1..]);
    }
  }

  /** In every run from the start, each step takes each request where it should, and none is forgotten. */
  lemma EveryRequestHasItsFate(events: seq<Event>, e: Event, n: int)
    ensures FateOf(Step(Run(CLOSED, events), e), n) == FateAfter(Run(CLOSED, events), e, n)
    ensures NoneForgotten(Run(CLOSED, events))
  {
    assert forall k :: SettledRight(CLOSED, k);
    NoneIsForgotten(CLOSED, events);
    StepFates(Run(CLOSED, events), e, n);
  }
}
