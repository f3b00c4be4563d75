/** The client's authenticated connection: reconnecting, and matching answers to requests across sockets. */
module AuthenticatedRealtimeSession {
  import opened Collections
  import opened Messages

  const DEFAULT_REALTIME_MAX_IMMEDIATE_RETRIES := 3

  datatype RequestId = RequestId(text: string)

  datatype LinkState = Closed | Connecting | Ready

  /**
   * Sockets are numbered by connection attempt. `Failing` and `Resolved` are promises whose
   * continuation is still to run.
   */
  datatype Loop =
    | NoLoop
    | Issuing(attempt: int)
    | Waiting(attempt: int, awaited: int)
    | Resolved(attempt: int, awaited: int, generation: string)
    | Failing(attempt: int, fatal: bool)
    | Delaying(attempt: int)
    | Finishing

  /** A request as it was asked; the socket is missing if it was never sent. */
  datatype Request = Request(id: RequestId, socket: Option<int>)

  datatype Outcome = Answered(socket: int) | Rejected

  /** Every call of resolve or reject is counted: a promise would silently ignore a second one. */
  datatype Link = Link(
    state: LinkState,
    socket: Option<int>,
    attempts: int,
    loop: Loop,
    serverGeneration: Option<string>,
    explicitlyClosed: bool,
    aborted: bool,
    pending: map<RequestId, int>,
    listening: set<int>,
    requests: map<int, Request>,
    settleCalls: multiset<int>,
    outcomes: map<int, Outcome>)

  const CLOSED := Link(Closed, None, 0, NoLoop, None, false, false, map[], {}, map[], multiset{}, map[])

  // --- Settling ---

  function Settle(l: Link, n: int, o: Outcome): Link {
    l.(settleCalls := l.settleCalls + multiset{n}, outcomes := l.outcomes[n := o])
  }

  /** Takes a request out of the pending ones and removes its abort listener. */
  function Unpend(l: Link, id: RequestId): Link {
    if id in l.pending then l.(pending := l.pending - {id}, listening := l.listening - {l.pending[id]}) else l
  }

  function Tokens(pending: map<RequestId, int>): set<int> {
    set id | id in pending :: pending[id]
  }

  function RejectAllPending(l: Link): Link {
    var all := Tokens(l.pending);
    l.(pending := map[], listening := l.listening - all,
       settleCalls := l.settleCalls + multiset(all),
       outcomes := l.outcomes + map n | n in all :: Rejected)
  }

  // --- The steps ---

  function Connect(l: Link): Link {
    if l.state == Ready || l.loop != NoLoop then l
    else
      l.(explicitlyClosed := false, aborted := if l.explicitlyClosed then false else l.aborted,
         state := Connecting, loop := Issuing(0))
  }

  /** A failed attempt gives up its socket; another follows after a delay, unless this was the last. */
  function AttemptFails(l: Link, attempt: int, fatal: bool): Link {
    var cleaned := l.(socket := None);
    if l.aborted || attempt == DEFAULT_REALTIME_MAX_IMMEDIATE_RETRIES || fatal then
      cleaned.(state := Closed, loop := Finishing)
    else cleaned.(loop := Delaying(attempt))
  }

  function TicketArrives(l: Link, issued: bool, fatal: bool): Link {
    match l.loop
    case Issuing(a) =>
      if !issued then l.(loop := Failing(a, fatal))
      else if l.aborted then l.(loop := Failing(a, false))
      else l.(attempts := l.attempts + 1, socket := Some(l.attempts + 1), loop := Waiting(a, l.attempts + 1))
    case _ => l
  }

  /** The connected event of a socket; a payload that cannot be read is fatal. */
  function ConnectedArrives(l: Link, s: int, generation: Option<string>): Link {
    match l.loop
    case Waiting(a, k) =>
      if s != k || l.socket != Some(s) then l
      else if generation.None? then l.(loop := Failing(a, true))
      else l.(loop := Resolved(a, k, generation.value))
    case _ => l
  }

  function TimesOut(l: Link): Link {
    match l.loop
    case Issuing(a) => l.(loop := Failing(a, false))
    case Waiting(a, _) => l.(loop := Failing(a, false))
    case _ => l
  }

  /** The continuation of the connection loop after an await. */
  function Resume(l: Link): Link {
    match l.loop
    case Resolved(a, k, g) =>
      if l.socket != Some(k) then AttemptFails(l, a, false)
      else l.(serverGeneration := Some(g), state := Ready, loop := Finishing)
    case Failing(a, fatal) => AttemptFails(l, a, fatal)
    case Delaying(a) => if l.aborted then l.(loop := Finishing) else l.(loop := Issuing(a + 1))
    case Finishing => l.(loop := NoLoop)
    case _ => l
  }

  function SocketCloses(l: Link, s: int): Link {
    var waiting := if l.loop.Waiting? && l.loop.awaited == s then l.(loop := Failing(l.loop.attempt, false)) else l;
    if l.socket != Some(s) then waiting
    else
      RejectAllPending(waiting.(socket := None, serverGeneration := None))
      .(state := if l.explicitlyClosed then Closed else Connecting)
  }

  function Reconnect(l: Link): Link {
    if !l.explicitlyClosed && l.socket == None then Connect(l) else l
  }

  /** What the abort signal makes of the promise that the loop waits for; one that is settled already stays so. */
  function AbortedLoop(loop: Loop): Loop {
    match loop
    case Issuing(a) => Failing(a, false)
    case Waiting(a, _) => Failing(a, false)
    case Delaying(_) => Finishing
    case other => other
  }

  function Disconnect(l: Link): Link {
    RejectAllPending(l.(explicitlyClosed := true, aborted := true, loop := AbortedLoop(l.loop), socket := None))
    .(serverGeneration := None, state := Closed)
  }

  function RequestSync(l: Link, n: int, id: RequestId, cancelled: bool, emitFails: bool): Link {
    if l.state != Ready || l.socket == None || id in l.pending || cancelled then
      Settle(l.(requests := l.requests[n := Request(id, None)]), n, Rejected)
    else
      var sent := l.(requests := l.requests[n := Request(id, l.socket)],
                     pending := l.pending[id := n], listening := l.listening + {n});
      if emitFails then Settle(Unpend(sent, id), n, Rejected) else sent
  }

  /** The listener of a request settles whatever is pending under its id, and rejects its own promise. */
  function AbortRequest(l: Link, n: int): Link {
    if n in l.listening && n in l.requests then Settle(Unpend(l, l.requests[n].id), n, Rejected) else l
  }

  function AnswerArrives(l: Link, s: int, id: RequestId): Link {
    if l.socket != Some(s) || id !in l.pending then l else Settle(Unpend(l, id), l.pending[id], Answered(s))
  }

  datatype Event =
    | CallConnect
    | Ticket(issued: bool, fatal: bool)
    | ConnectedEvent(from: int, generation: Option<string>)
    | Timeout
    | Continue
    | Close(from: int)
    | Microtask
    | CallDisconnect
    | CallRequest(n: int, id: RequestId, cancelled: bool, emitFails: bool)
    | Abort(n: int)
    | Answer(from: int, id: RequestId)

  function Step(l: Link, e: Event): Link {
    match e
    case CallConnect => Connect(l)
    case Ticket(issued, fatal) => TicketArrives(l, issued, fatal)
    case ConnectedEvent(s, g) => ConnectedArrives(l, s, g)
    case Timeout => TimesOut(l)
    case Continue => Resume(l)
    case Close(s) => SocketCloses(l, s)
    case Microtask => Reconnect(l)
    case CallDisconnect => Disconnect(l)
    case CallRequest(n, id, cancelled, emitFails) =>
      if n in l.requests then l else RequestSync(l, n, id, cancelled, emitFails)
    case Abort(n) => AbortRequest(l, n)
    case Answer(s, id) => AnswerArrives(l, s, id)
  }

  // --- What always holds ---

  predicate IsTrying(loop: Loop) {
    !loop.NoLoop? && !loop.Finishing?
  }

  /** A pending request was sent over the socket in use, and has not been settled. */
  ghost predicate IsPending(l: Link, id: RequestId, n: int) {
    && l.state == Ready && l.socket.Some?
    && n in l.requests && l.requests[n] == Request(id, l.socket)
    && n in l.listening && l.settleCalls[n] == 0
  }

  ghost predicate AllPending(l: Link) {
    forall id :: id in l.pending ==> IsPending(l, id, l.pending[id])
  }

  /** Abort listeners are attached exactly to the pending requests. */
  ghost predicate AllListening(l: Link) {
    forall n :: n in l.listening ==>
      n in l.requests && l.requests[n].id in l.pending && l.pending[l.requests[n].id] == n
  }

  /** A request is settled at most once, and answered only over the socket that it was sent on. */
  ghost predicate SettledRight(l: Link, n: int) {
    && l.settleCalls[n] <= 1
    && (l.settleCalls[n] > 0 ==> n in l.requests)
    && (n in l.outcomes <==> l.settleCalls[n] > 0)
    && (n in l.outcomes && l.outcomes[n].Answered? ==> l.requests[n].socket == Some(l.outcomes[n].socket))
  }

  /** A ready connection has a socket, and nobody is trying to connect it. */
  ghost predicate Good(l: Link) {
    && AllPending(l) && AllListening(l)
    && (forall n :: SettledRight(l, n))
    && (l.state == Ready ==> l.socket.Some?)
    && (IsTrying(l.loop) ==> l.state != Ready)
  }

  /** Nothing is pending unless the connection is ready. */
  lemma NothingPendingUnlessReady(l: Link)
    requires Good(l) && l.state != Ready
    ensures l.pending == map[] && l.listening == {}
  {
    assert forall id :: id in l.pending ==> IsPending(l, id, l.pending[id]);
    assert forall id :: id !in l.pending;
    assert forall n :: n !in l.listening;
  }

  /** Steps that only move the connection on, while nothing is pending. */
  ghost predicate OnlyConnection(l: Link, next: Link) {
    next == l.(state := next.state, socket := next.socket, attempts := next.attempts, loop := next.loop,
               serverGeneration := next.serverGeneration,
               explicitlyClosed := next.explicitlyClosed, aborted := next.aborted)
  }

  lemma ConnectionKeeps(l: Link, next: Link)
    requires Good(l) && OnlyConnection(l, next) && l.state != Ready
    requires (next.state == Ready ==> next.socket.Some?) && (IsTrying(next.loop) ==> next.state != Ready)
    ensures Good(next)
  {
    NothingPendingUnlessReady(l);
    forall n ensures SettledRight(next, n) {
      assert SettledRight(l, n);
    }
  }

  /** Steps that leave state, socket and requests alone. */
  lemma LoopKeeps(l: Link, loop: Loop)
    requires Good(l) && (IsTrying(loop) ==> l.state != Ready)
    ensures Good(l.(loop := loop))
  {
    var next := l.(loop := loop);
    forall id | id in next.pending ensures IsPending(next, id, next.pending[id]) {
      assert IsPending(l, id, l.pending[id]);
    }
    forall n ensures SettledRight(next, n) {
      assert SettledRight(l, n);
    }
  }

  /** Rejecting all pending requests settles each of them for the first time. */
  lemma RejectAllKeeps(l: Link, next: Link)
    requires Good(l)
    requires next == RejectAllPending(l).(state := next.state, socket := next.socket, loop := next.loop,
                                          serverGeneration := next.serverGeneration,
                                          explicitlyClosed := next.explicitlyClosed, aborted := next.aborted)
    requires next.state != Ready
    ensures Good(next) && next.pending == map[]
  {
    forall n ensures SettledRight(next, n) {
      assert SettledRight(l, n);
      if n in Tokens(l.pending) {
        var id :| id in l.pending && l.pending[id] == n;
        assert IsPending(l, id, n);
      }
    }
    forall n | n in l.listening ensures n in Tokens(l.pending) {
      assert l.requests[n].id in l.pending;
    }
  }

  /** Taking out a pending request and settling it. */
  lemma SettlePendingKeeps(l: Link, id: RequestId, o: Outcome)
    requires Good(l) && id in l.pending && (o.Answered? ==> Some(o.socket) == l.socket)
    ensures Good(Settle(Unpend(l, id), l.pending[id], o))
  {
    var n := l.pending[id];
    var next := Settle(Unpend(l, id), n, o);
    assert IsPending(l, id, n);
    forall other | other in next.pending ensures IsPending(next, other, next.pending[other]) {
      assert IsPending(l, other, l.pending[other]);
      assert l.requests[l.pending[other]].id == other;
    }
    forall k ensures SettledRight(next, k) {
      assert SettledRight(l, k);
    }
  }

  lemma RefusedRequestKeeps(l: Link, n: int, id: RequestId)
    requires Good(l) && n !in l.requests
    ensures Good(Settle(l.(requests := l.requests[n := Request(id, None)]), n, Rejected))
  {
    var next := Settle(l.(requests := l.requests[n := Request(id, None)]), n, Rejected);
    forall other | other in next.pending ensures IsPending(next, other, next.pending[other]) {
      assert IsPending(l, other, l.pending[other]);
    }
    forall k ensures SettledRight(next, k) {
      assert SettledRight(l, k);
    }
  }

  lemma SentRequestKeeps(l: Link, n: int, id: RequestId)
    requires Good(l) && n !in l.requests && l.state == Ready && l.socket.Some? && id !in l.pending
    ensures Good(l.(requests := l.requests[n := Request(id, l.socket)],
                    pending := l.pending[id := n], listening := l.listening + {n}))
  {
    var next := l.(requests := l.requests[n := Request(id, l.socket)],
                   pending := l.pending[id := n], listening := l.listening + {n});
    assert SettledRight(l, n);
    forall other | other in next.pending ensures IsPending(next, other, next.pending[other]) {
      assert other != id ==> IsPending(l, other, l.pending[other]);
    }
    forall k ensures SettledRight(next, k) {
      assert SettledRight(l, k);
    }
  }

  lemma RequestKeeps(l: Link, n: int, id: RequestId, cancelled: bool, emitFails: bool)
    requires Good(l) && n !in l.requests
    ensures Good(RequestSync(l, n, id, cancelled, emitFails))
  {
    if l.state != Ready || l.socket == None || id in l.pending || cancelled {
      RefusedRequestKeeps(l, n, id);
    } else {
      SentRequestKeeps(l, n, id);
      if emitFails {
        SettlePendingKeeps(
          l.(requests := l.requests[n := Request(id, l.socket)],
             pending := l.pending[id := n], listening := l.listening + {n}),
          id, Rejected);
      }
    }
  }

  lemma ResumeKeeps(l: Link)
    requires Good(l)
    ensures Good(Resume(l))
  {
    if IsTrying(l.loop) {
      ConnectionKeeps(l, Resume(l));
    } else {
      LoopKeeps(l, NoLoop);
    }
  }

  lemma CloseKeeps(l: Link, s: int)
    requires Good(l)
    ensures Good(SocketCloses(l, s))
  {
    var waiting := if l.loop.Waiting? && l.loop.awaited == s then l.(loop := Failing(l.loop.attempt, false)) else l;
    LoopKeeps(l, waiting.loop);
    if l.socket == Some(s) {
      RejectAllKeeps(l, SocketCloses(l, s));
    }
  }

  lemma StepKeeps(l: Link, e: Event)
    requires Good(l)
    ensures Good(Step(l, e))
  {
    match e {
      case CallConnect => if l.state != Ready { ConnectionKeeps(l, Connect(l)); }
      case Ticket(issued, fatal) => if l.loop.Issuing? { ConnectionKeeps(l, Step(l, e)); }
      case ConnectedEvent(s, g) => if l.loop.Waiting? { ConnectionKeeps(l, Step(l, e)); }
      case Timeout => if IsTrying(l.loop) { ConnectionKeeps(l, Step(l, e)); }
      case Continue => ResumeKeeps(l);
      case Close(s) => CloseKeeps(l, s);
      case Microtask => if l.state != Ready { ConnectionKeeps(l, Step(l, e)); }
      case CallDisconnect => RejectAllKeeps(l, Disconnect(l));
      case CallRequest(n, id, cancelled, emitFails) =>
        if n !in l.requests { RequestKeeps(l, n, id, cancelled, emitFails); }
      case Abort(n) => if n in l.listening { SettlePendingKeeps(l, l.requests[n].id, Rejected); }
      case Answer(s, id) => if l.socket == Some(s) && id in l.pending { SettlePendingKeeps(l, id, Answered(s)); }
    }
  }

  // --- Whole runs ---

  function Run(l: Link, events: seq<Event>): Link
    decreases |events|
  {
    if events == [] then l else Run(Step(l, events[0]), events[1..])
  }

  lemma {:induction false} RunKeeps(l: Link, events: seq<Event>)
    requires Good(l)
    ensures Good(Run(l, events))
    decreases |events|
  {
    if events != [] {
      StepKeeps(l, events[0]);
      RunKeeps(Step(l, events[0]), events[1..]);
    }
  }

  /**
   * In every run: nothing is pending unless the connection is ready, no request is settled twice, and
   * an answer resolves only a request that was sent over the socket it came from.
   */
  lemma RequestsAreMatched(events: seq<Event>, n: int)
    ensures var l := Run(CLOSED, events);
            && (l.state != Ready ==> l.pending == map[])
            && l.settleCalls[n] <= 1
            && (n in l.outcomes && l.outcomes[n].Answered? ==>
                n in l.requests && l.requests[n].socket == Some(l.outcomes[n].socket))
  {
    var l := Run(CLOSED, events);
    assert forall k :: SettledRight(CLOSED, k);
    RunKeeps(CLOSED, events);
    assert SettledRight(l, n);
    if l.state != Ready {
      NothingPendingUnlessReady(l);
    }
  }

  /** An event of a socket that is no longer in use. */
  predicate IsSuperseded(l: Link, e: Event) {
    (e.ConnectedEvent? || e.Close? || e.Answer?) && l.socket != Some(e.from)
  }

  /** The event settles the request. */
  predicate Settles(l: Link, e: Event, n: int) {
    n !in l.outcomes && n in Step(l, e).outcomes
  }

  /** Such an event can at most fail the attempt that still waits for that very socket. */
  lemma SupersededEventDoesNothing(l: Link, e: Event)
    requires Good(l) && IsSuperseded(l, e)
    ensures Step(l, e) == l
            || (e.Close? && l.state != Ready && Step(l, e) == l.(loop := Failing(l.loop.attempt, false)))
  {
  }

  /** The outcome, once there, is there to stay. */
  lemma {:induction false} OutcomesStay(l: Link, events: seq<Event>, n: int)
    requires Good(l) && n in l.outcomes
    ensures n in Run(l, events).outcomes && Run(l, events).outcomes[n] == l.outcomes[n]
    decreases |events|
  {
    if events != [] {
      StepKeeps(l, events[0]);
      OutcomeStays(l, events[0], n);
      OutcomesStay(Step(l, events[0]), events[1..], n);
    }
  }

  lemma OutcomeStays(l: Link, e: Event, n: int)
    requires Good(l) && n in l.outcomes
    ensures n in Step(l, e).outcomes && Step(l, e).outcomes[n] == l.outcomes[n]
  {
    assert SettledRight(l, n);
    forall id | id in l.pending ensures l.pending[id] != n {
      assert IsPending(l, id, l.pending[id]);
    }
  }

  /**
   * Whatever happens, an outcome comes from one event of the run, which no later one changes; and no
   * event of a socket that is no longer in use brings about any outcome.
   */
  lemma {:induction false} SupersededSocketsSettleNothing(l: Link, events: seq<Event>, n: int) returns (k: nat)
    requires Good(l) && n !in l.outcomes && n in Run(l, events).outcomes
    ensures k < |events|
    ensures var before := Run(l, events[..k]);
            && Settles(before, events[k], n) && !IsSuperseded(before, events[k])
            && Run(l, events).outcomes[n] == Step(before, events[k]).outcomes[n]
    decreases |events|
  {
    var next := Step(l, events[0]);
    StepKeeps(l, events[0]);
    if n in next.outcomes {
      k := 0;
      assert events[..0] == [];
      if IsSuperseded(l, events[0]) {
        SupersededEventDoesNothing(l, events[0]);
      }
      OutcomesStay(next, events[1..], n);
    } else {
      k := SupersededSocketsSettleNothing(next, events[1..], n);
      assert events[..k + 1][0] == events[0] && events[..k + 1][1..] == events[1..][..k];
      k := k + 1;
    }
  }

  // --- The same steps on state updated in place ---

  /** The requests that are pending under some ids. */
  function Under(l: Link, ids: set<RequestId>): set<int> {
    set id | id in ids && id in l.pending :: l.pending[id]
  }

  /** The requests under some ids rejected, the others still pending. */
  function RejectThese(l: Link, ids: set<RequestId>): Link {
    l.(pending := l.pending - ids, listening := l.listening - Under(l, ids),
       settleCalls := l.settleCalls + multiset(Under(l, ids)),
       outcomes := l.outcomes + map n | n in Under(l, ids) :: Rejected)
  }

  lemma RejectNone(l: Link)
    ensures RejectThese(l, {}) == l
  {
    assert forall n :: n !in Under(l, {});
    assert Under(l, {}) == {};
  }

  lemma UnderOneMore(l: Link, ids: set<RequestId>, id: RequestId)
    requires AllPending(l) && id in l.pending && id !in ids
    ensures Under(l, ids + {id}) == Under(l, ids) + {l.pending[id]} && l.pending[id] !in Under(l, ids)
  {
    assert IsPending(l, id, l.pending[id]);
    forall other | other in ids && other in l.pending ensures l.pending[other] != l.pending[id] {
      assert IsPending(l, other, l.pending[other]);
    }
  }

  lemma OneMoreGone(listening: set<int>, calls: multiset<int>, outcomes: map<int, Outcome>, gone: set<int>, n: int)
    requires n !in gone
    ensures listening - (gone + {n}) == listening - gone - {n}
    ensures calls + multiset(gone + {n}) == calls + multiset(gone) + multiset{n}
    ensures outcomes + (map k | k in gone + {n} :: Rejected)
            == (outcomes + map k | k in gone :: Rejected)[n := Rejected]
  {
  }

  lemma RejectOneMore(l: Link, ids: set<RequestId>, id: RequestId)
    requires AllPending(l) && id in l.pending && id !in ids
    ensures RejectThese(l, ids + {id}) == Settle(Unpend(RejectThese(l, ids), id), l.pending[id], Rejected)
  {
    UnderOneMore(l, ids, id);
    OneMoreGone(l.listening, l.settleCalls, l.outcomes, Under(l, ids), l.pending[id]);
    assert l.pending - (ids + {id}) == l.pending - ids - {id};
  }

  lemma AllAreRejected(l: Link)
    ensures RejectThese(l, l.pending.Keys) == RejectAllPending(l)
  {
    assert Under(l, l.pending.Keys) == Tokens(l.pending);
  }

  /** The requests under a list of ids rejected one after the other. */
  function RejectEach(l: Link, ids: seq<RequestId>): Link
    decreases |ids|
  {
    if ids == [] then l
    else
      var id, before := ids[|ids| - 1], RejectEach(l, ids[..|ids| - 1]);
      if id in l.pending then Settle(Unpend(before, id), l.pending[id], Rejected) else before
  }

  /** Each of the ids occurs once. */
  ghost predicate ListsOnce(ids: seq<RequestId>, all: set<RequestId>) {
    && (forall i, j :: 0 <= i < j < |ids| ==> ids[i] != ids[j])
    && (forall id :: id in ids <==> id in all)
  }

  function SetOf(ids: seq<RequestId>): set<RequestId> {
    set id | id in ids
  }

  lemma {:induction false} EachIsRejected(l: Link, ids: seq<RequestId>)
    requires AllPending(l) && forall id :: id in ids ==> id in l.pending
    requires forall i, j :: 0 <= i < j < |ids| ==> ids[i] != ids[j]
    ensures RejectEach(l, ids) == RejectThese(l, SetOf(ids))
    decreases |ids|
  {
    if ids == [] {
      assert SetOf(ids) == {};
      RejectNone(l);
    } else {
      var init, id := ids[..|ids| - 1], ids[|ids| - 1];
      assert ids == init + [id];
      assert SetOf(ids) == SetOf(init) + {id};
      EachIsRejected(l, init);
      RejectOneMore(l, SetOf(init), id);
    }
  }

  /** The order in which the pending requests are rejected makes no difference. */
  lemma AnyOrderRejectsAll(l: Link, ids: seq<RequestId>)
    requires AllPending(l) && ListsOnce(ids, l.pending.Keys)
    ensures RejectEach(l, ids) == RejectAllPending(l)
  {
    EachIsRejected(l, ids);
    assert SetOf(ids) == l.pending.Keys;
    AllAreRejected(l);
  }

  /** The keys of a map in some order. */
  method KeysOf(all: set<RequestId>) returns (ids: seq<RequestId>)
    ensures ListsOnce(ids, all)
  {
    ids := [];
    var rest := all;
    while rest != {}
      invariant rest <= all
      invariant forall i, j :: 0 <= i < j < |ids| ==> ids[i] != ids[j]
      invariant forall id :: id in ids <==> id in all && id !in rest
      decreases |rest|
    {
      var id := AnyOf(rest);
      rest := rest - {id};
      ids := ids + [id];
    }
  }

  class AuthenticatedRealtimeSessionModel {
    var state: LinkState
    var socket: Option<int>
    var connectionAttempt: int
    var loop: Loop
    var serverConnectionGeneration: Option<string>
    var explicitlyClosed: bool
    var aborted: bool
    var pending: map<RequestId, int>
    var listening: set<int>
    var requests: map<int, Request>

    /** Only the claims read these. */
    ghost var settleCalls: multiset<int>
    ghost var outcomes: map<int, Outcome>

    ghost function View(): Link
      reads this
    {
      Link(state, socket, connectionAttempt, loop, serverConnectionGeneration, explicitlyClosed, aborted,
           pending, listening, requests, settleCalls, outcomes)
    }

    ghost predicate Valid()
      reads this
    {
      Good(View())
    }

    constructor ()
      ensures Valid() && View() == CLOSED
    {
      state, socket, connectionAttempt, loop, serverConnectionGeneration := Closed, None, 0, NoLoop, None;
      explicitlyClosed, aborted, pending, listening, requests := false, false, map[], {}, map[];
      settleCalls, outcomes := multiset{}, map[];
      new;
      assert forall n :: SettledRight(CLOSED, n);
    }

    ghost method Call(n: int, o: Outcome)
      modifies this`settleCalls, this`outcomes
      ensures View() == Settle(old(View()), n, o)
    {
      settleCalls, outcomes := settleCalls + multiset{n}, outcomes[n := o];
    }

    method SettlePending(id: RequestId) returns (n: Option<int>)
      modifies this`pending, this`listening
      ensures View() == Unpend(old(View()), id)
      ensures n == if id in old(pending) then Some(old(pending)[id]) else None
    {
      if id !in pending {
        return None;
      }
      n := Some(pending[id]);
      listening := listening - {pending[id]};
      pending := pending - {id};
    }

    method RejectOne(id: RequestId)
      requires id in pending
      modifies this`pending, this`listening, this`settleCalls, this`outcomes
      ensures View() == Settle(Unpend(old(View()), id), old(pending)[id], Rejected)
    {
      var n := SettlePending(id);
      Call(n.value, Rejected);
    }

    method RejectAll(ids: seq<RequestId>)
      requires (forall i, j :: 0 <= i < j < |ids| ==> ids[i] != ids[j]) && forall id :: id in ids ==> id in pending
      modifies this`pending, this`listening, this`settleCalls, this`outcomes
      ensures View() == RejectEach(old(View()), ids)
    {
      ghost var l := View();
      for i := 0 to |ids|
        invariant forall j :: i <= j < |ids| ==> ids[j] in pending && pending[ids[j]] == l.pending[ids[j]]
        invariant View() == RejectEach(l, ids[..i])
      {
        assert ids[..i + 1][..i] == ids[..i] && ids[..i + 1][i] == ids[i];
        RejectOne(ids[i]);
      }
      assert ids[..|ids|] == ids;
    }

    method RejectPending()
      requires AllPending(View())
      modifies this`pending, this`listening, this`settleCalls, this`outcomes
      ensures View() == RejectAllPending(old(View()))
    {
      ghost var l := View();
      var ids := KeysOf(pending.Keys);
      RejectAll(ids);
      AnyOrderRejectsAll(l, ids);
    }

    method RequestStreamSync(n: int, id: RequestId, cancelled: bool, emitFails: bool)
      requires Valid() && n !in requests
      modifies this
      ensures Valid() && View() == RequestSync(old(View()), n, id, cancelled, emitFails)
    {
      RequestKeeps(View(), n, id, cancelled, emitFails);
      if state != Ready || socket == None || id in pending || cancelled {
        requests := requests[n := Request(id, None)];
        Call(n, Rejected);
        return;
      }
      requests := requests[n := Request(id, socket)];
      pending := pending[id := n];
      listening := listening + {n};
      if emitFails {
        var settled := SettlePending(id);
        Call(n, Rejected);
      }
    }

    method HandleAbort(n: int)
      requires Valid() && n in listening
      modifies this
      ensures Valid() && View() == AbortRequest(old(View()), n)
    {
      StepKeeps(View(), Abort(n));
      var settled := SettlePending(requests[n].id);
      Call(n, Rejected);
    }

    method HandleAnswer(from: int, id: RequestId)
      requires Valid()
      modifies this
      ensures Valid() && View() == AnswerArrives(old(View()), from, id)
    {
      StepKeeps(View(), Answer(from, id));
      if socket != Some(from) {
        return;
      }
      var settled := SettlePending(id);
      if settled.Some? {
        Call(settled.value, Answered(from));
      }
    }

    /** The socket goes, and with it everything that was asked over it. */
    method DropSocket(next: LinkState)
      requires Valid()
      modifies this
      ensures View() == RejectAllPending(old(View())).(socket := None, serverGeneration := None, state := next)
    {
      RejectPending();
      socket, serverConnectionGeneration, state := None, None, next;
    }

    method HandleClose(from: int)
      requires Valid()
      modifies this
      ensures View() == SocketCloses(old(View()), from)
      ensures Valid()
    {
      ghost var l := View();
      CloseKeeps(l, from);
      if loop.Waiting? && loop.awaited == from {
        LoopKeeps(l, Failing(loop.attempt, false));
        loop := Failing(loop.attempt, false);
      }
      if socket == Some(from) {
        DropSocket(if explicitlyClosed then Closed else Connecting);
      }
    }

    method AbortLoop()
      modifies this`loop
      ensures loop == AbortedLoop(old(loop))
    {
      match loop {
        case Issuing(a) => loop := Failing(a, false);
        case Waiting(a, _) => loop := Failing(a, false);
        case Delaying(_) => loop := Finishing;
        case _ =>
      }
    }

    method DisconnectLink()
      requires Valid()
      modifies this
      ensures View() == Disconnect(old(View()))
      ensures Valid()
    {
      StepKeeps(View(), CallDisconnect);
      DropSocket(Closed);
      explicitlyClosed, aborted := true, true;
      AbortLoop();
    }

    method ConnectLink()
      requires Valid()
      modifies this
      ensures Valid() && View() == Connect(old(View()))
    {
      StepKeeps(View(), CallConnect);
      if state == Ready || loop != NoLoop {
        return;
      }
      if explicitlyClosed {
        explicitlyClosed, aborted := false, false;
      }
      state, loop := Connecting, Issuing(0);
    }

    /** The connection loop goes on after an await. */
    method Proceed()
      requires Valid()
      modifies this
      ensures Valid() && View() == Resume(old(View()))
    {
      StepKeeps(View(), Continue);
      match loop {
        case Resolved(a, k, g) =>
          if socket != Some(k) {
            EndAttempt(a, false);
          } else {
            serverConnectionGeneration, state, loop := Some(g), Ready, Finishing;
          }
        case Failing(a, fatal) => EndAttempt(a, fatal);
        case Delaying(a) => loop := if aborted then Finishing else Issuing(a + 1);
        case Finishing => loop := NoLoop;
        case _ =>
      }
    }

    method EndAttempt(attempt: int, fatal: bool)
      modifies this`socket, this`state, this`loop
      ensures View() == AttemptFails(old(View()), attempt, fatal)
    {
      socket := None;
      if aborted || attempt == DEFAULT_REALTIME_MAX_IMMEDIATE_RETRIES || fatal {
        state, loop := Closed, Finishing;
      } else {
        loop := Delaying(attempt);
      }
    }
  }
}
