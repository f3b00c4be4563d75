/** The keys a chat displays: its timeline's messages, then the local sends that are not on display yet. */
module ChatKeys {
  import opened Messages

  datatype IdempotencyKey = IdempotencyKey(text: string)

  /** Every message object has one key for life: that of its local send, or that of its server message. */
  datatype Handle = LocalSend(idempotencyKey: IdempotencyKey) | ServerMessage(messageId: MessageId)

  datatype Status = Pending | FailedToSend

  /** The local part of a message object is dropped when the server accepts it. */
  datatype Managed = Managed(local: Option<Status>, serverId: Option<MessageId>, alias: Option<Handle>, discarded: bool)

  type Objects = map<Handle, Managed>

  datatype Chat = Chat(
    objects: Objects,
    byUiKey: map<Handle, Handle>,
    byIdempotencyKey: map<IdempotencyKey, Handle>,
    byServerId: map<MessageId, Handle>,
    localOrder: seq<Handle>,
    keys: seq<Handle>,
    shown: seq<MessageId>)

  datatype Acceptance = Applied | IdentityConflict | TimelineRefused

  const EMPTY_CHAT := Chat(map[], map[], map[], map[], [], [], [])

  // --- What always holds ---

  /** Local sends are never aliases; one is known by its idempotency key, and by its server id once it has one. */
  ghost predicate LocalOk(c: Chat, id: IdempotencyKey) {
    var h := LocalSend(id);
    && h in c.objects
    && c.objects[h].alias.None?
    && (c.objects[h].local.Some? <==> c.objects[h].serverId.None?)
    && (c.objects[h].serverId.Some? ==>
          && !c.objects[h].discarded
          && c.objects[h].serverId.value in c.byServerId && c.byServerId[c.objects[h].serverId.value] == h)
  }

  /** A server message that a local send has taken over points to it, and that one points nowhere. */
  ghost predicate ServerOk(c: Chat, s: MessageId) {
    var h := ServerMessage(s);
    h in c.objects ==>
      && c.objects[h].serverId == Some(s) && c.objects[h].local.None? && !c.objects[h].discarded
      && s in c.byServerId && h in c.byUiKey
      && c.objects[h].alias == (if c.byServerId[s] == h then None else Some(c.byServerId[s]))
  }

  /** The occupant of a server id carries it. */
  ghost predicate OccupantOk(c: Chat, s: MessageId) {
    s in c.byServerId ==>
      && c.byServerId[s] in c.objects && c.objects[c.byServerId[s]].serverId == Some(s)
      && (c.byServerId[s] == ServerMessage(s)
          || (c.byServerId[s].LocalSend? && c.byServerId[s].idempotencyKey in c.byIdempotencyKey))
      && ServerMessage(s) in c.byUiKey
  }

  /** A key leads to the object that occupies it. */
  ghost predicate KeyOk(c: Chat, k: Handle) {
    k in c.byUiKey ==>
      match k
      case LocalSend(id) => id in c.byIdempotencyKey && c.byUiKey[k] == k
      case ServerMessage(s) => s in c.byServerId && c.byUiKey[k] == c.byServerId[s]
  }

  ghost predicate Linked(c: Chat) {
    && (forall id :: id in c.byIdempotencyKey ==>
          && c.byIdempotencyKey[id] == LocalSend(id) && LocalOk(c, id)
          && (LocalSend(id) in c.byUiKey <==> !c.objects[LocalSend(id)].discarded))
    && (forall id :: LocalSend(id) in c.objects ==> id in c.byIdempotencyKey)
    && (forall s :: ServerOk(c, s))
    && (forall s :: OccupantOk(c, s))
    && (forall k :: KeyOk(c, k))
  }

  predicate DistinctHandles(hs: seq<Handle>) {
    forall i, j :: 0 <= i < j < |hs| ==> hs[i] != hs[j]
  }

  predicate DistinctIds(ids: seq<MessageId>) {
    forall i, j :: 0 <= i < j < |ids| ==> ids[i] != ids[j]
  }

  /** A send still to be displayed apart: neither discarded nor on display under its server id. */
  predicate Waits(objects: Objects, shown: seq<MessageId>, h: Handle) {
    && h in objects && !objects[h].discarded
    && !(objects[h].serverId.Some? && objects[h].serverId.value in shown)
  }

  function Pick(hs: seq<Handle>, objects: Objects, shown: seq<MessageId>): seq<Handle>
    decreases |hs|
  {
    if hs == [] then []
    else
      var last := hs[|hs| - 1];
      Pick(hs[..|hs| - 1], objects, shown) + (if Waits(objects, shown, last) then [last] else [])
  }

  ghost predicate AllSends(known: map<IdempotencyKey, Handle>, hs: seq<Handle>) {
    DistinctHandles(hs) && forall i :: 0 <= i < |hs| ==> hs[i].LocalSend? && hs[i].idempotencyKey in known
  }

  ghost predicate AllKnown(known: map<IdempotencyKey, Handle>, sent: seq<Handle>) {
    forall id :: id in known ==> LocalSend(id) in sent
  }

  ghost predicate AllKept(objects: Objects, hs: seq<Handle>) {
    forall i :: 0 <= i < |hs| ==> hs[i] in objects && !objects[hs[i]].discarded
  }

  /** `sent` are all local sends in the order they were made. */
  ghost predicate Ordered(
    order: seq<Handle>, sent: seq<Handle>, objects: Objects, shown: seq<MessageId>, known: map<IdempotencyKey, Handle>)
  {
    && AllSends(known, sent) && AllSends(known, order) && AllKept(objects, order)
    && AllKnown(known, sent)
    && Pick(order, objects, shown) == Pick(sent, objects, shown)
  }

  ghost predicate Good(c: Chat, sent: seq<Handle>) {
    && Linked(c) && Ordered(c.localOrder, sent, c.objects, c.shown, c.byIdempotencyKey)
    && DistinctIds(c.shown) && DistinctHandles(c.keys)
  }

  // --- The operations, on values ---

  function Canonical(objects: Objects, h: Handle): Handle {
    if h in objects && objects[h].alias.Some? then objects[h].alias.value else h
  }

  function Fail(objects: Objects, h: Handle): Objects {
    if h in objects && !objects[h].discarded && objects[h].serverId.None? && objects[h].local == Some(Pending)
    then objects[h := objects[h].(local := Some(FailedToSend))] else objects
  }

  function SetPending(objects: Objects, h: Handle): Objects {
    if h in objects && objects[h].local == Some(FailedToSend) then
      objects[h := objects[h].(local := Some(Pending))]
    else objects
  }

  /** Sending again; `fails` tells whether the transport throws. */
  function Transmit(c: Chat, h: Handle, fails: bool): Chat {
    if h !in c.objects || c.objects[h].serverId.Some? || h !in c.localOrder then c
    else
      var pending := SetPending(c.objects, h);
      c.(objects := if fails then Fail(pending, h) else pending)
  }

  function Created(c: Chat, id: IdempotencyKey, h: Handle): Chat {
    c.(
    objects := c.objects[h := Managed(Some(Pending), None, None, false)],
    byUiKey := c.byUiKey[h := h],
    byIdempotencyKey := c.byIdempotencyKey[id := h],
    localOrder := c.localOrder + [h])
  }

  function Send(c: Chat, id: IdempotencyKey, fails: bool): (Chat, bool) {
    if id in c.byIdempotencyKey then (c, false)
    else
      (Transmit(Created(c, id, LocalSend(id)), LocalSend(id), fails), true)
  }

  predicate CanRetry(c: Chat, h: Handle) {
    h in c.objects && !c.objects[h].discarded && c.objects[h].serverId.None? && c.objects[h].local == Some(FailedToSend)
  }

  function Retry(c: Chat, key: Handle, fails: bool): Chat {
    if key !in c.byUiKey then c
    else
      var h := Canonical(c.objects, c.byUiKey[key]);
      if CanRetry(c, h) then Transmit(c, h, fails) else c
  }

  /** What is left of a list without the given entries. */
  function NotIn(hs: seq<Handle>, gone: seq<Handle>): seq<Handle>
    decreases |hs|
  {
    if hs == [] then []
    else NotIn(hs[..|hs| - 1], gone) + (if hs[|hs| - 1] in gone then [] else [hs[|hs| - 1]])
  }

  /** The idempotency key stays known, so that a late answer is recognised. */
  function Discard(c: Chat, key: Handle): Chat {
    if key !in c.byUiKey then c
    else
      var h := Canonical(c.objects, c.byUiKey[key]);
      if !CanRetry(c, h) then c
      else
        c.(objects := c.objects[h := c.objects[h].(discarded := true)],
           localOrder := NotIn(c.localOrder, [h]), byUiKey := c.byUiKey - {h})
  }

  function Reject(c: Chat, id: IdempotencyKey): Chat {
    if id in c.byIdempotencyKey then c.(objects := Fail(c.objects, c.byIdempotencyKey[id])) else c
  }

  function FailAll(objects: Objects, hs: seq<Handle>): Objects
    decreases |hs|
  {
    if hs == [] then objects else Fail(FailAll(objects, hs[..|hs| - 1]), hs[|hs| - 1])
  }

  predicate ConflictsOnAccept(c: Chat, id: IdempotencyKey, s: MessageId) {
    || (s in c.byServerId && c.byServerId[s].LocalSend? && c.byServerId[s] != LocalSend(id))
    || (id in c.byIdempotencyKey && c.byIdempotencyKey[id] in c.objects
        && c.objects[c.byIdempotencyKey[id]].serverId.Some? && c.objects[c.byIdempotencyKey[id]].serverId != Some(s))
  }

  /** A local send takes the place of its server message, whose object becomes an alias. */
  function Attach(c: Chat, h: Handle, s: MessageId): Chat
    requires h in c.objects
  {
    var accepted := c.objects[h := c.objects[h].(serverId := Some(s), local := None)];
    var previous := if s in c.byServerId then c.byServerId[s] else h;
    c.(byServerId := c.byServerId[s := h],
       objects := if previous != h && previous in accepted
                  then accepted[previous := accepted[previous].(alias := Some(h))] else accepted,
       byUiKey := c.byUiKey[ServerMessage(s) := h])
  }

  /** `taken` tells whether the timeline accepts the record. */
  function Accept(c: Chat, id: IdempotencyKey, s: MessageId, taken: bool): (Chat, Acceptance) {
    if ConflictsOnAccept(c, id, s) then (c, IdentityConflict)
    else if !taken then (c, TimelineRefused)
    else if id !in c.byIdempotencyKey || c.byIdempotencyKey[id] !in c.byUiKey || c.byIdempotencyKey[id] !in c.objects
            || c.objects[c.byIdempotencyKey[id]].serverId == Some(s) then (c, Applied)
    else (Attach(c, c.byIdempotencyKey[id], s), Applied)
  }

  /** The object that displays a server message; it is made when it is first needed. */
  function Materialise(c: Chat, s: MessageId): Chat {
    if s in c.byServerId then c
    else
      var h := ServerMessage(s);
      c.(objects := c.objects[h := Managed(None, Some(s), None, false)],
         byServerId := c.byServerId[s := h], byUiKey := c.byUiKey[h := h])
  }

  function MaterialiseAll(c: Chat, ids: seq<MessageId>): Chat
    decreases |ids|
  {
    if ids == [] then c else Materialise(MaterialiseAll(c, ids[..|ids| - 1]), ids[|ids| - 1])
  }

  /** The keys of the server messages on display. */
  function Occupants(c: Chat, ids: seq<MessageId>): seq<Handle>
    requires forall i :: 0 <= i < |ids| ==> ids[i] in c.byServerId
  {
    seq(|ids|, i requires 0 <= i < |ids| => Canonical(c.objects, c.byServerId[ids[i]]))
  }

  lemma {:induction false} MaterialisedAreKnown(c: Chat, ids: seq<MessageId>, s: MessageId)
    ensures s in ids || s in c.byServerId ==> s in MaterialiseAll(c, ids).byServerId
    decreases |ids|
  {
    if ids != [] {
      assert ids == ids[..|ids| - 1] + [ids[|ids| - 1]];
      MaterialisedAreKnown(c, ids[..|ids| - 1], s);
    }
  }

  /** Displays what the timeline shows, then the sends that are not among it, which are all that stay in order. */
  function Refresh(c: Chat): Chat {
    var m := MaterialiseAll(c, c.shown);
    assert forall i :: 0 <= i < |c.shown| ==> c.shown[i] in m.byServerId by {
      forall i | 0 <= i < |c.shown| ensures c.shown[i] in m.byServerId {
        MaterialisedAreKnown(c, c.shown, c.shown[i]);
      }
    }
    var displayed := Occupants(m, c.shown);
    var rest := NotIn(c.localOrder, displayed);
    m.(localOrder := rest, keys := displayed + rest)
  }

  // --- Runs ---

  datatype Event =
    | SendText(id: IdempotencyKey, fails: bool)
    | RetryKey(key: Handle, fails: bool)
    | DiscardKey(key: Handle)
    | Rejected(id: IdempotencyKey)
    | Disconnected
    | AcceptedAs(id: IdempotencyKey, messageId: MessageId, taken: bool)
    | TimelineShows(ids: seq<MessageId>)
    | RefreshKeys

  /** The timeline never takes a message off the display. */
  predicate ShowsMore(shown: seq<MessageId>, ids: seq<MessageId>) {
    DistinctIds(ids) && forall i :: 0 <= i < |shown| ==> shown[i] in ids
  }

  function Step(c: Chat, e: Event): Chat {
    match e
    case SendText(id, fails) => Send(c, id, fails).0
    case RetryKey(key, fails) => Retry(c, key, fails)
    case DiscardKey(key) => Discard(c, key)
    case Rejected(id) => Reject(c, id)
    case Disconnected => c.(objects := FailAll(c.objects, c.localOrder))
    case AcceptedAs(id, s, taken) => Accept(c, id, s, taken).0
    case TimelineShows(ids) => if ShowsMore(c.shown, ids) then c.(shown := ids) else c
    case RefreshKeys => Refresh(c)
  }

  function SentAfter(c: Chat, sent: seq<Handle>, e: Event): seq<Handle> {
    if e.SendText? && e.id !in c.byIdempotencyKey then sent + [LocalSend(e.id)] else sent
  }
}
