/** What becomes of each send, told without any of the chat's indexes: a small machine of its own. */
module ChatLives {
  import opened Messages
  import opened ChatKeys
  import opened ChatRuns

  /** A send is on its way, has failed, stands for a message of the server, or was dropped after it failed. */
  datatype Life = OnItsWay | HasFailed | StandsAs(messageId: MessageId) | Dropped

  type Lives = map<IdempotencyKey, Life>

  /** Another send stands for the message already. */
  predicate StoodForByOther(lives: Lives, id: IdempotencyKey, s: MessageId) {
    exists other :: other in lives && other != id && lives[other] == StandsAs(s)
  }

  /** What an event makes of one send. */
  function OneLife(lives: Lives, id: IdempotencyKey, e: Event): Life
    requires id in lives
  {
    match lives[id]
    case OnItsWay =>
      if e == Rejected(id) || e.Disconnected? then HasFailed
      else if e.AcceptedAs? && e.id == id && e.taken && !StoodForByOther(lives, id, e.messageId) then
        StandsAs(e.messageId)
      else OnItsWay
    case HasFailed =>
      if e.RetryKey? && e.key == LocalSend(id) && !e.fails then OnItsWay
      else if e == DiscardKey(LocalSend(id)) then Dropped
      else if e.AcceptedAs? && e.id == id && e.taken && !StoodForByOther(lives, id, e.messageId) then
        StandsAs(e.messageId)
      else HasFailed
    case StandsAs(s) => StandsAs(s)
    case Dropped => Dropped
  }

  function Lived(lives: Lives, e: Event): Lives {
    if e.SendText? && e.id !in lives then lives[e.id := if e.fails then HasFailed else OnItsWay]
    else map id | id in lives :: OneLife(lives, id, e)
  }

  function LivesAfter(lives: Lives, events: seq<Event>): Lives
    decreases |events|
  {
    if events == [] then lives else LivesAfter(Lived(lives, events[0]), events[1..])
  }

  // --- What the chat keeps of it ---

  function LifeOf(objects: Objects, h: Handle): Life
    requires h in objects
  {
    if objects[h].discarded then Dropped
    else if objects[h].serverId.Some? then StandsAs(objects[h].serverId.value)
    else if objects[h].local == Some(Pending) then OnItsWay
    else HasFailed
  }

  function LivesOf(c: Chat): Lives {
    map id | id in c.byIdempotencyKey && LocalSend(id) in c.objects :: LifeOf(c.objects, LocalSend(id))
  }

  lemma SendsLive(c: Chat, sent: seq<Handle>)
    requires Good(c, sent)
    ensures forall id :: id in LivesOf(c) <==> id in c.byIdempotencyKey
    ensures forall id :: id in c.byIdempotencyKey ==>
              c.byIdempotencyKey[id] == LocalSend(id) && LocalSend(id) in c.objects && LocalOk(c, id)
  {
    forall id | id in c.byIdempotencyKey ensures LocalOk(c, id) {
    }
  }

  /** What is on its way or has failed is in the local order. */
  lemma UnsettledIsInOrder(c: Chat, sent: seq<Handle>, id: IdempotencyKey)
    requires Good(c, sent) && id in c.byIdempotencyKey
    requires LocalSend(id) in c.objects
    requires !c.objects[LocalSend(id)].discarded && c.objects[LocalSend(id)].serverId.None?
    ensures LocalSend(id) in c.localOrder
  {
    PickMembers(sent, c.objects, c.shown, LocalSend(id));
    PickMembers(c.localOrder, c.objects, c.shown, LocalSend(id));
  }

  lemma {:induction false} FailAllFails(objects: Objects, hs: seq<Handle>, h: Handle)
    requires h in objects
    ensures h in FailAll(objects, hs)
    ensures FailAll(objects, hs)[h] == if h in hs then Fail(objects, h)[h] else objects[h]
    decreases |hs|
  {
    if hs != [] {
      assert hs == hs[..|hs| - 1] + [hs[|hs| - 1]];
      FailAllFails(objects, hs[..|hs| - 1], h);
    }
  }

  /** Another send stands for a message exactly if the message has it as its occupant. */
  lemma StoodForByOccupant(c: Chat, sent: seq<Handle>, id: IdempotencyKey, s: MessageId)
    requires Good(c, sent)
    ensures StoodForByOther(LivesOf(c), id, s) <==>
            s in c.byServerId && c.byServerId[s].LocalSend? && c.byServerId[s] != LocalSend(id)
  {
    SendsLive(c, sent);
    var lives := LivesOf(c);
    if s in c.byServerId && c.byServerId[s].LocalSend? && c.byServerId[s] != LocalSend(id) {
      var other := c.byServerId[s].idempotencyKey;
      assert OccupantOk(c, s);
      assert LocalOk(c, other) && lives[other] == StandsAs(s);
    }
    if other :| other in lives && other != id && lives[other] == StandsAs(s) {
      assert LocalOk(c, other);
    }
  }

  /** What becomes of every send that is known already. */
  ghost predicate OldSendsLive(c: Chat, next: Chat, e: Event) {
    forall id :: id in LivesOf(c) ==> LocalSend(id) in next.objects && OneStep(c, next, e, id)
  }

  ghost predicate OneStep(c: Chat, next: Chat, e: Event, id: IdempotencyKey)
    requires id in LivesOf(c) && LocalSend(id) in next.objects
  {
    LifeOf(next.objects, LocalSend(id)) == OneLife(LivesOf(c), id, e)
  }

  lemma LivesFollow(c: Chat, sent: seq<Handle>, next: Chat, e: Event)
    requires Good(c, sent) && next.byIdempotencyKey == c.byIdempotencyKey && OldSendsLive(c, next, e)
    requires e.SendText? ==> e.id in c.byIdempotencyKey
    ensures LivesOf(next) == Lived(LivesOf(c), e)
  {
    SendsLive(c, sent);
    forall id | id in c.byIdempotencyKey
      ensures id in LivesOf(next) && LivesOf(next)[id] == OneLife(LivesOf(c), id, e)
    {
      assert OneStep(c, next, e, id);
    }
  }

  /** Sending again changes the status of that send only. */
  lemma TransmitLives(c: Chat, h: Handle, fails: bool)
    requires h in c.objects && c.objects[h].serverId.None? && h in c.localOrder && !c.objects[h].discarded
    requires c.objects[h].local.Some?
    ensures Transmit(c, h, fails)
         == c.(objects := c.objects[h := c.objects[h].(local := Some(if fails then FailedToSend else Pending))])
  {
    var pending := c.objects[h := c.objects[h].(local := Some(Pending))];
    assert c.objects[h].local.value.Pending? || c.objects[h].local.value.FailedToSend?;
    if c.objects[h].local == Some(Pending) {
      assert c.objects[h].(local := Some(Pending)) == c.objects[h];
      assert pending == c.objects;
    }
    assert SetPending(c.objects, h) == pending;
    assert Fail(pending, h) == c.objects[h := c.objects[h].(local := Some(FailedToSend))];
  }

  lemma SendAdds(c: Chat, id: IdempotencyKey, fails: bool)
    requires id !in c.byIdempotencyKey
    ensures var next, h := Send(c, id, fails).0, LocalSend(id);
            && next.byIdempotencyKey == c.byIdempotencyKey[id := h]
            && next.objects == c.objects[h := Managed(Some(if fails then FailedToSend else Pending), None, None, false)]
  {
    var h, created := LocalSend(id), Created(c, id, LocalSend(id));
    assert created.localOrder[|c.localOrder|] == h;
    TransmitLives(created, h, fails);
  }

  lemma LifeIsAdded(c: Chat, next: Chat, id: IdempotencyKey, m: Managed)
    requires next.byIdempotencyKey == c.byIdempotencyKey[id := LocalSend(id)]
    requires next.objects == c.objects[LocalSend(id) := m]
    ensures LivesOf(next) == LivesOf(c)[id := LifeOf(next.objects, LocalSend(id))]
  {
  }

  lemma SendLives(c: Chat, sent: seq<Handle>, id: IdempotencyKey, fails: bool)
    requires Good(c, sent) && id !in c.byIdempotencyKey
    ensures LivesOf(Step(c, SendText(id, fails))) == Lived(LivesOf(c), SendText(id, fails))
  {
    SendAdds(c, id, fails);
    LifeIsAdded(c, Send(c, id, fails).0, id, Managed(Some(if fails then FailedToSend else Pending), None, None, false));
  }

  /** Only its own key leads to a send that has not been accepted. */
  lemma RetriedByOwnKey(c: Chat, sent: seq<Handle>, key: Handle, id: IdempotencyKey)
    requires Good(c, sent) && id in c.byIdempotencyKey && key in c.byUiKey && LocalSend(id) in c.objects
    requires c.objects[LocalSend(id)].serverId.None?
    ensures Canonical(c.objects, c.byUiKey[key]) == LocalSend(id) <==> key == LocalSend(id)
  {
    SendsLive(c, sent);
    assert KeyOk(c, key);
    if key.ServerMessage? {
      OccupantIsCanonical(c, key.messageId);
    }
  }

  lemma OwnKeyLeadsToIt(c: Chat, sent: seq<Handle>, id: IdempotencyKey)
    requires Good(c, sent) && id in LivesOf(c)
    ensures LocalSend(id) in c.byUiKey <==> LivesOf(c)[id] != Dropped
  {
    SendsLive(c, sent);
    assert c.byIdempotencyKey[id] == LocalSend(id);
  }

  lemma RetriedOne(c: Chat, sent: seq<Handle>, id: IdempotencyKey, fails: bool)
    requires Good(c, sent) && id in LivesOf(c) && LivesOf(c)[id] == HasFailed && LocalSend(id) in c.byUiKey
    ensures var next := Retry(c, LocalSend(id), fails);
            LocalSend(id) in next.objects && OneStep(c, next, RetryKey(LocalSend(id), fails), id)
  {
    SendsLive(c, sent);
    RetriedByOwnKey(c, sent, LocalSend(id), id);
    UnsettledIsInOrder(c, sent, id);
    TransmitLives(c, LocalSend(id), fails);
  }

  lemma TransmitLeavesOthers(c: Chat, h: Handle, fails: bool, other: Handle)
    requires other in c.objects && other != h
    ensures other in Transmit(c, h, fails).objects && Transmit(c, h, fails).objects[other] == c.objects[other]
  {
  }

  lemma RetryOne(c: Chat, sent: seq<Handle>, key: Handle, fails: bool, id: IdempotencyKey)
    requires Good(c, sent) && id in LivesOf(c)
    ensures LocalSend(id) in Retry(c, key, fails).objects && OneStep(c, Retry(c, key, fails), RetryKey(key, fails), id)
  {
    if LivesOf(c)[id] == HasFailed && key == LocalSend(id) {
      OwnKeyLeadsToIt(c, sent, id);
      RetriedOne(c, sent, id, fails);
    } else if key in c.byUiKey && CanRetry(c, Canonical(c.objects, c.byUiKey[key])) {
      var h := Canonical(c.objects, c.byUiKey[key]);
      RetriedIsOther(c, sent, key, id);
      TransmitLeavesOthers(c, h, fails, LocalSend(id));
    }
  }

  lemma RetriedIsOther(c: Chat, sent: seq<Handle>, key: Handle, id: IdempotencyKey)
    requires Good(c, sent) && id in LivesOf(c) && key in c.byUiKey && CanRetry(c, Canonical(c.objects, c.byUiKey[key]))
    requires LivesOf(c)[id] != HasFailed || key != LocalSend(id)
    ensures Canonical(c.objects, c.byUiKey[key]) != LocalSend(id)
  {
    SendsLive(c, sent);
    if c.objects[LocalSend(id)].serverId.None? {
      RetriedByOwnKey(c, sent, key, id);
    }
  }

  lemma DiscardOne(c: Chat, sent: seq<Handle>, key: Handle, id: IdempotencyKey)
    requires Good(c, sent) && id in LivesOf(c)
    ensures LocalSend(id) in Discard(c, key).objects && OneStep(c, Discard(c, key), DiscardKey(key), id)
  {
    SendsLive(c, sent);
    OwnKeyLeadsToIt(c, sent, id);
    var life, h := LivesOf(c)[id], LocalSend(id);
    if life == HasFailed && key in c.byUiKey {
      assert c.objects[h].local.value.Pending? || c.objects[h].local.value.FailedToSend?;
      RetriedByOwnKey(c, sent, key, id);
    } else {
      assert CanRetry(c, h) ==> life == HasFailed;
      assert h in Discard(c, key).objects && Discard(c, key).objects[h] == c.objects[h];
    }
  }

  lemma DisconnectOne(c: Chat, sent: seq<Handle>, id: IdempotencyKey)
    requires Good(c, sent) && id in LivesOf(c)
    ensures LocalSend(id) in Step(c, Disconnected).objects && OneStep(c, Step(c, Disconnected), Disconnected, id)
  {
    SendsLive(c, sent);
    FailAllFails(c.objects, c.localOrder, LocalSend(id));
    if LivesOf(c)[id] == OnItsWay {
      UnsettledIsInOrder(c, sent, id);
    }
  }

  lemma RejectOne(c: Chat, sent: seq<Handle>, rejected: IdempotencyKey, id: IdempotencyKey)
    requires Good(c, sent) && id in LivesOf(c)
    ensures LocalSend(id) in Reject(c, rejected).objects && OneStep(c, Reject(c, rejected), Rejected(rejected), id)
  {
    SendsLive(c, sent);
  }

  lemma AcceptOne(c: Chat, sent: seq<Handle>, accepted: IdempotencyKey, s: MessageId, taken: bool, id: IdempotencyKey)
    requires Good(c, sent) && id in LivesOf(c)
    ensures var next := Accept(c, accepted, s, taken).0;
            LocalSend(id) in next.objects && OneStep(c, next, AcceptedAs(accepted, s, taken), id)
  {
    SendsLive(c, sent);
    StoodForByOccupant(c, sent, accepted, s);
    assert OccupantOk(c, s) && LocalOk(c, id);
  }

  /** What a refresh adds are objects of server messages. */
  lemma {:induction false} MaterialisingLives(c: Chat, ids: seq<MessageId>, id: IdempotencyKey)
    ensures LocalSend(id) in MaterialiseAll(c, ids).objects <==> LocalSend(id) in c.objects
    ensures LocalSend(id) in c.objects ==> MaterialiseAll(c, ids).objects[LocalSend(id)] == c.objects[LocalSend(id)]
    decreases |ids|
  {
    if ids != [] {
      MaterialisingLives(c, ids[..|ids| - 1], id);
    }
  }

  lemma {:induction false} MaterialisingKeepsKeys(c: Chat, ids: seq<MessageId>)
    ensures MaterialiseAll(c, ids).byIdempotencyKey == c.byIdempotencyKey
    decreases |ids|
  {
    if ids != [] {
      MaterialisingKeepsKeys(c, ids[..|ids| - 1]);
    }
  }

  lemma RefreshOne(c: Chat, sent: seq<Handle>, id: IdempotencyKey)
    requires Good(c, sent) && id in LivesOf(c)
    ensures LocalSend(id) in Refresh(c).objects && OneStep(c, Refresh(c), RefreshKeys, id)
  {
    MaterialisingLives(c, c.shown, id);
  }

  lemma StepOne(c: Chat, sent: seq<Handle>, e: Event, id: IdempotencyKey)
    requires Good(c, sent) && id in LivesOf(c) && (e.SendText? ==> e.id in c.byIdempotencyKey)
    ensures LocalSend(id) in Step(c, e).objects && OneStep(c, Step(c, e), e, id)
  {
    match e {
      case RetryKey(key, fails) => RetryOne(c, sent, key, fails, id);
      case DiscardKey(key) => DiscardOne(c, sent, key, id);
      case Rejected(rejected) => RejectOne(c, sent, rejected, id);
      case Disconnected => DisconnectOne(c, sent, id);
      case AcceptedAs(accepted, s, taken) => AcceptOne(c, sent, accepted, s, taken, id);
      case RefreshKeys => RefreshOne(c, sent, id);
      case _ =>
    }
  }

  lemma StepLives(c: Chat, sent: seq<Handle>, e: Event)
    requires Good(c, sent)
    ensures LivesOf(Step(c, e)) == Lived(LivesOf(c), e)
  {
    if e.SendText? && e.id !in c.byIdempotencyKey {
      SendLives(c, sent, e.id, e.fails);
    } else {
      forall id | id in LivesOf(c) ensures LocalSend(id) in Step(c, e).objects && OneStep(c, Step(c, e), e, id) {
        StepOne(c, sent, e, id);
      }
      MaterialisingKeepsKeys(c, c.shown);
      LivesFollow(c, sent, Step(c, e), e);
    }
  }

  lemma {:induction false} RunLives(c: Chat, sent: seq<Handle>, events: seq<Event>)
    requires Good(c, sent)
    ensures LivesOf(Run(c, events)) == LivesAfter(LivesOf(c), events)
    decreases |events|
  {
    if events != [] {
      StepLives(c, sent, events[0]);
      StepKeeps(c, sent, events[0]);
      RunLives(Step(c, events[0]), SentAfter(c, sent, events[0]), events[1..]);
    }
  }

  /** In every run, each send is where its own events have taken it: the chat's indexes and order do not matter. */
  lemma EverySendLives(events: seq<Event>)
    ensures LivesOf(Run(EMPTY_CHAT, events)) == LivesAfter(map[], events)
  {
    EmptyIsGood();
    RunLives(EMPTY_CHAT, [], events);
    assert LivesOf(EMPTY_CHAT) == map[];
  }

  /** What sending and accepting report, from the lives alone. */
  lemma ReportsAreRight(c: Chat, sent: seq<Handle>, id: IdempotencyKey, fails: bool, s: MessageId, taken: bool)
    requires Good(c, sent)
    ensures Send(c, id, fails).1 <==> id !in LivesOf(c)
    ensures var a := Accept(c, id, s, taken).1;
            var lives := LivesOf(c);
            && (a == IdentityConflict <==>
                StoodForByOther(lives, id, s) || (id in lives && lives[id].StandsAs? && lives[id] != StandsAs(s)))
            && (a == TimelineRefused <==> a != IdentityConflict && !taken)
  {
    SendsLive(c, sent);
    StoodForByOccupant(c, sent, id, s);
    if id in c.byIdempotencyKey {
      assert LocalOk(c, id);
    }
  }
}
