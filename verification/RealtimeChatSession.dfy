/** The chat's message objects and indexes, updated in place. */
module RealtimeChatSession {
  import opened Messages
  import opened ChatKeys
  import opened ChatRuns

  class RealtimeChatTargetSession {
    var objects: Objects
    var byUiKey: map<Handle, Handle>
    var byIdempotencyKey: map<IdempotencyKey, Handle>
    var byServerId: map<MessageId, Handle>
    var localOrder: seq<Handle>
    var keys: seq<Handle>

    /** What the timeline shows; the chat only reads it. */
    var shown: seq<MessageId>

    /** All sends so far, in order. */
    ghost var sent: seq<Handle>

    function Contents(): Chat
      reads this
    {
      Chat(objects, byUiKey, byIdempotencyKey, byServerId, localOrder, keys, shown)
    }

    ghost predicate Valid()
      reads this
    {
      Good(Contents(), sent)
    }

    constructor ()
      ensures Valid() && Contents() == EMPTY_CHAT && sent == []
    {
      objects, byUiKey, byIdempotencyKey, byServerId := map[], map[], map[], map[];
      localOrder, keys, shown, sent := [], [], [], [];
    }

    method FailMessage(h: Handle)
      requires h in objects
      modifies this`objects
      ensures objects == Fail(old(objects), h)
    {
      var m := objects[h];
      if m.discarded || m.serverId.Some? || m.local != Some(Pending) {
        return;
      }
      objects := objects[h := m.(local := Some(FailedToSend))];
    }

    method TransmitMessage(h: Handle, fails: bool)
      requires h in objects
      modifies this`objects
      ensures Contents() == Transmit(old(Contents()), h, fails)
    {
      if objects[h].serverId.Some? || h !in localOrder {
        return;
      }
      if objects[h].local == Some(FailedToSend) {
        objects := objects[h := objects[h].(local := Some(Pending))];
      }
      if fails {
        FailMessage(h);
      }
    }

    /** A key that is used again is a conflict, and changes nothing. */
    method SendMessage(id: IdempotencyKey, fails: bool) returns (ok: bool)
      requires Valid()
      modifies this
      ensures Valid() && Send(old(Contents()), id, fails) == (Contents(), ok)
      ensures sent == if ok then old(sent) + [LocalSend(id)] else old(sent)
    {
      if id in byIdempotencyKey {
        return false;
      }
      ghost var c := Contents();
      SendKeeps(c, sent, id, fails);
      var h := LocalSend(id);
      RegisterSend(id, h);
      TransmitMessage(h, fails);
      sent := sent + [h];
      assert Contents() == Send(c, id, fails).0;
      return true;
    }

    method RegisterSend(id: IdempotencyKey, h: Handle)
      modifies this
      ensures Contents() == Created(old(Contents()), id, h) && sent == old(sent)
    {
      byIdempotencyKey := byIdempotencyKey[id := h];
      objects := objects[h := Managed(Some(Pending), None, None, false)];
      byUiKey := byUiKey[h := h];
      localOrder := localOrder + [h];
    }

    method RetryMessage(key: Handle, fails: bool)
      requires Valid()
      modifies this
      ensures Valid() && sent == old(sent) && Contents() == Retry(old(Contents()), key, fails)
    {
      StepKeeps(Contents(), sent, RetryKey(key, fails));
      if key !in byUiKey {
        return;
      }
      var h := Canonical(objects, byUiKey[key]);
      if CanRetry(Contents(), h) {
        TransmitMessage(h, fails);
      }
    }

    method DiscardMessage(key: Handle)
      requires Valid()
      modifies this
      ensures Valid() && sent == old(sent) && Contents() == Discard(old(Contents()), key)
    {
      DiscardKeeps(Contents(), sent, key);
      if key !in byUiKey {
        return;
      }
      var h := Canonical(objects, byUiKey[key]);
      if !CanRetry(Contents(), h) {
        return;
      }
      objects := objects[h := objects[h].(discarded := true)];
      localOrder := NotIn(localOrder, [h]);
      byUiKey := byUiKey - {h};
    }

    method MessageRejected(id: IdempotencyKey)
      requires Valid()
      modifies this
      ensures Valid() && sent == old(sent) && Contents() == Reject(old(Contents()), id)
    {
      StepKeeps(Contents(), sent, Rejected(id));
      if id in byIdempotencyKey {
        assert LocalOk(Contents(), id);
        FailMessage(byIdempotencyKey[id]);
      }
    }

    method FailLocalOrder()
      requires AllKept(objects, localOrder)
      modifies this`objects
      ensures objects == FailAll(old(objects), localOrder)
    {
      for i := 0 to |localOrder|
        invariant objects == FailAll(old(objects), localOrder[..i])
        invariant forall h :: h in old(objects) ==> h in objects
      {
        assert localOrder[..i + 1][..i] == localOrder[..i] && localOrder[..i + 1][i] == localOrder[i];
        FailMessage(localOrder[i]);
      }
      assert localOrder[..|localOrder|] == localOrder;
    }

    /** When the connection is lost, everything still on its way has failed. */
    method ConnectionLost()
      requires Valid()
      modifies this`objects
      ensures Valid() && Contents() == old(Contents()).(objects := FailAll(old(objects), localOrder))
    {
      StepKeeps(Contents(), sent, Disconnected);
      FailLocalOrder();
    }

    /** Nothing changes if ids conflict or the timeline refuses the record. */
    method AcceptMessage(id: IdempotencyKey, s: MessageId, taken: bool) returns (a: Acceptance)
      requires Valid()
      modifies this
      ensures Valid() && sent == old(sent) && Accept(old(Contents()), id, s, taken) == (Contents(), a)
    {
      AcceptKeeps(Contents(), sent, id, s, taken);
      if id in byIdempotencyKey {
        assert LocalOk(Contents(), id);
      }
      assert OccupantOk(Contents(), s);
      if s in byServerId && byServerId[s].LocalSend? && byServerId[s] != LocalSend(id) {
        return IdentityConflict;
      }
      if id in byIdempotencyKey && objects[byIdempotencyKey[id]].serverId.Some?
          && objects[byIdempotencyKey[id]].serverId != Some(s) {
        return IdentityConflict;
      }
      if !taken {
        return TimelineRefused;
      }
      if id !in byIdempotencyKey || byIdempotencyKey[id] !in byUiKey
          || objects[byIdempotencyKey[id]].serverId == Some(s) {
        return Applied;
      }
      var h := byIdempotencyKey[id];
      var previous := if s in byServerId then Some(byServerId[s]) else None;
      byServerId := byServerId[s := h];
      objects := objects[h := objects[h].(serverId := Some(s), local := None)];
      if previous.Some? && previous.value != h {
        objects := objects[previous.value := objects[previous.value].(alias := Some(h))];
      }
      byUiKey := byUiKey[ServerMessage(s) := h];
      return Applied;
    }

    /** The object of a server message, made on first use. */
    method GetServerMessage(s: MessageId) returns (h: Handle)
      modifies this
      ensures Contents() == Materialise(old(Contents()), s) && sent == old(sent)
      ensures s in byServerId && h == byServerId[s]
    {
      if s in byServerId {
        return byServerId[s];
      }
      h := ServerMessage(s);
      byServerId := byServerId[s := h];
      objects := objects[h := Managed(None, Some(s), None, false)];
      byUiKey := byUiKey[h := h];
    }

    /** The timeline's messages first; in the first loop, objects may still be made. */
    method CollectShown() returns (ordered: seq<Handle>)
      requires Valid()
      modifies this
      ensures shown == old(shown) && sent == old(sent)
      ensures Contents() == MaterialiseAll(old(Contents()), shown)
      ensures forall i :: 0 <= i < |shown| ==> shown[i] in byServerId
      ensures ordered == Occupants(Contents(), shown)
    {
      ordered := [];
      for i := 0 to |shown|
        invariant shown == old(shown) && sent == old(sent)
        invariant Contents() == MaterialiseAll(old(Contents()), shown[..i])
        invariant Linked(Contents()) && |ordered| == i
        invariant forall j :: 0 <= j < i ==> shown[j] in byServerId && ordered[j] == byServerId[shown[j]]
      {
        assert shown[..i + 1][..i] == shown[..i] && shown[..i + 1][i] == shown[i];
        MaterialiseKeepsLinked(Contents(), shown[i]);
        var h := GetServerMessage(shown[i]);
        OccupantIsCanonical(Contents(), shown[i]);
        ordered := ordered + [Canonical(objects, h)];
      }
      assert shown[..|shown|] == shown;
      OccupantsAreDistinct(Contents(), shown);
    }

    /** Then the sends that are not among them; those that are leave the order. */
    method DropDisplayed(displayed: seq<Handle>)
      modifies this`localOrder
      ensures localOrder == NotIn(old(localOrder), displayed)
    {
      var rest: seq<Handle> := [];
      for i := 0 to |localOrder|
        invariant rest == NotIn(localOrder[..i], displayed) && localOrder == old(localOrder)
      {
        assert localOrder[..i + 1][..i] == localOrder[..i] && localOrder[..i + 1][i] == localOrder[i];
        if localOrder[i] !in displayed {
          rest := rest + [localOrder[i]];
        }
      }
      assert localOrder[..|localOrder|] == localOrder;
      localOrder := rest;
    }

    method RefreshMessageKeys()
      requires Valid()
      modifies this
      ensures Valid() && sent == old(sent) && Contents() == Refresh(old(Contents()))
    {
      ghost var c := Contents();
      ghost var m := MaterialiseAll(c, c.shown);
      RefreshKeeps(c, sent);
      ShownIsMaterialised(c);
      MaterialiseAllKeeps(c, c.shown);
      var ordered := CollectShown();
      assert Contents() == m && ordered == Occupants(m, c.shown);
      DropDisplayed(ordered);
      assert localOrder == NotIn(c.localOrder, Occupants(m, c.shown));
      ordered := ordered + localOrder;
      if ordered != keys {
        keys := ordered;
      }
      assert Contents() == m.(localOrder := localOrder, keys := ordered);
    }
  }
}
