/** What every run of a chat keeps, and what its keys display after a refresh. */
module ChatRuns {
  import opened Messages
  import Timeline = TimelineRuns
  import TimelineSpec
  import TimelineCoverage
  import opened ChatKeys

  // --- Changes of status ---

  /** Only pending turned into failed, or back. */
  ghost predicate StatusChange(a: Objects, b: Objects) {
    && (forall h :: h in a <==> h in b)
    && (forall h :: h in a ==> b[h] == a[h].(local := b[h].local) && (a[h].local.Some? <==> b[h].local.Some?))
  }

  lemma {:induction false} FailAllIsStatusChange(objects: Objects, hs: seq<Handle>)
    ensures StatusChange(objects, FailAll(objects, hs))
    decreases |hs|
  {
    if hs != [] {
      FailAllIsStatusChange(objects, hs[..|hs| - 1]);
    }
  }

  lemma {:induction false} PickSame(hs: seq<Handle>, a: Objects, b: Objects, shown: seq<MessageId>)
    requires forall i :: 0 <= i < |hs| ==> (Waits(a, shown, hs[i]) <==> Waits(b, shown, hs[i]))
    ensures Pick(hs, a, shown) == Pick(hs, b, shown)
    decreases |hs|
  {
    if hs != [] {
      PickSame(hs[..|hs| - 1], a, b, shown);
    }
  }

  lemma StatusChangeKeeps(c: Chat, sent: seq<Handle>, objects: Objects)
    requires Good(c, sent) && StatusChange(c.objects, objects)
    ensures Good(c.(objects := objects), sent)
  {
    PickSame(c.localOrder, c.objects, objects, c.shown);
    PickSame(sent, c.objects, objects, c.shown);
    var d := c.(objects := objects);
    forall s ensures ServerOk(d, s) && OccupantOk(d, s) {
      assert ServerOk(c, s) && OccupantOk(c, s);
    }
    forall k ensures KeyOk(d, k) {
      assert KeyOk(c, k);
    }
    forall id | id in c.byIdempotencyKey ensures LocalOk(d, id) {
      assert LocalOk(c, id);
    }
  }

  lemma TransmitKeeps(c: Chat, sent: seq<Handle>, h: Handle, fails: bool)
    requires Good(c, sent)
    ensures Good(Transmit(c, h, fails), sent)
  {
    StatusChangeKeeps(c, sent, Transmit(c, h, fails).objects);
  }

  // --- Sending ---

  lemma {:induction false} PickAppend(hs: seq<Handle>, more: seq<Handle>, objects: Objects, shown: seq<MessageId>)
    ensures Pick(hs + more, objects, shown) == Pick(hs, objects, shown) + Pick(more, objects, shown)
    decreases |more|
  {
    if more == [] {
      assert hs + more == hs;
    } else {
      var init, last := more[..|more| - 1], more[|more| - 1];
      assert (hs + more)[..|hs + more| - 1] == hs + init && (hs + more)[|hs + more| - 1] == last;
      PickAppend(hs, init, objects, shown);
    }
  }

  lemma SendKeepsLinked(c: Chat, id: IdempotencyKey)
    requires Linked(c) && id !in c.byIdempotencyKey
    ensures Linked(Created(c, id, LocalSend(id)))
  {
    var d := Created(c, id, LocalSend(id));
    forall s ensures ServerOk(d, s) && OccupantOk(d, s) {
      assert ServerOk(c, s) && OccupantOk(c, s);
    }
    forall k ensures KeyOk(d, k) {
      assert KeyOk(c, k);
    }
    forall other | other in d.byIdempotencyKey ensures LocalOk(d, other) {
      assert other != id ==> LocalOk(c, other);
    }
  }

  lemma PickBothAppend(order: seq<Handle>, sent: seq<Handle>, objects: Objects, shown: seq<MessageId>, h: Handle,
                       m: Managed)
    requires Pick(order, objects, shown) == Pick(sent, objects, shown) && h !in order && h !in sent
    ensures Pick(order + [h], objects[h := m], shown) == Pick(sent + [h], objects[h := m], shown)
  {
    PickSame(order, objects, objects[h := m], shown);
    PickSame(sent, objects, objects[h := m], shown);
    PickAppend(order, [h], objects[h := m], shown);
    PickAppend(sent, [h], objects[h := m], shown);
  }

  lemma AllSendsAppend(known: map<IdempotencyKey, Handle>, hs: seq<Handle>, id: IdempotencyKey)
    requires AllSends(known, hs) && id !in known
    ensures LocalSend(id) !in hs && AllSends(known[id := LocalSend(id)], hs + [LocalSend(id)])
  {
  }

  lemma AllKnownAppend(known: map<IdempotencyKey, Handle>, sent: seq<Handle>, id: IdempotencyKey)
    requires AllKnown(known, sent)
    ensures AllKnown(known[id := LocalSend(id)], sent + [LocalSend(id)])
  {
    var h := LocalSend(id);
    forall other | other in known[id := h] ensures LocalSend(other) in sent + [h] {
      assert (sent + [h])[|sent|] == h;
    }
  }

  lemma AllKeptAppend(objects: Objects, hs: seq<Handle>, h: Handle, m: Managed)
    requires AllKept(objects, hs) && !m.discarded
    ensures AllKept(objects[h := m], hs + [h])
  {
  }

  lemma SendKeepsOrder(order: seq<Handle>, sent: seq<Handle>, objects: Objects, shown: seq<MessageId>,
                       known: map<IdempotencyKey, Handle>, id: IdempotencyKey, m: Managed)
    requires Ordered(order, sent, objects, shown, known) && id !in known && !m.discarded
    ensures var h := LocalSend(id);
            Ordered(order + [h], sent + [h], objects[h := m], shown, known[id := h])
  {
    AllSendsAppend(known, order, id);
    AllSendsAppend(known, sent, id);
    PickBothAppend(order, sent, objects, shown, LocalSend(id), m);
    AllKnownAppend(known, sent, id);
    AllKeptAppend(objects, order, LocalSend(id), m);
  }

  lemma SendKeeps(c: Chat, sent: seq<Handle>, id: IdempotencyKey, fails: bool)
    requires Good(c, sent) && id !in c.byIdempotencyKey
    ensures Good(Send(c, id, fails).0, sent + [LocalSend(id)])
  {
    var h := LocalSend(id);
    SendKeepsLinked(c, id);
    SendKeepsOrder(c.localOrder, sent, c.objects, c.shown, c.byIdempotencyKey, id,
                   Managed(Some(Pending), None, None, false));
    TransmitKeeps(Created(c, id, h), sent + [h], h, fails);
  }

  // --- Discarding, accepting and showing: what waits can only become less ---

  ghost predicate WaitsLess(hs: seq<Handle>, a: Objects, aShown: seq<MessageId>, b: Objects, bShown: seq<MessageId>) {
    forall i :: 0 <= i < |hs| && Waits(b, bShown, hs[i]) ==> Waits(a, aShown, hs[i])
  }

  lemma {:induction false} PickOfPick(hs: seq<Handle>, a: Objects, aShown: seq<MessageId>, b: Objects,
                                      bShown: seq<MessageId>)
    requires WaitsLess(hs, a, aShown, b, bShown)
    ensures Pick(Pick(hs, a, aShown), b, bShown) == Pick(hs, b, bShown)
    decreases |hs|
  {
    if hs != [] {
      var init, last := hs[..|hs| - 1], hs[|hs| - 1];
      PickOfPick(init, a, aShown, b, bShown);
      if Waits(a, aShown, last) {
        PickAppend(Pick(init, a, aShown), [last], b, bShown);
        assert [last][..0] == [];
      } else {
        assert Pick(hs, a, aShown) == Pick(init, a, aShown);
      }
    }
  }

  lemma PickBothLess(order: seq<Handle>, sent: seq<Handle>, a: Objects, aShown: seq<MessageId>, b: Objects,
                     bShown: seq<MessageId>)
    requires Pick(order, a, aShown) == Pick(sent, a, aShown)
    requires WaitsLess(order, a, aShown, b, bShown) && WaitsLess(sent, a, aShown, b, bShown)
    ensures Pick(order, b, bShown) == Pick(sent, b, bShown)
  {
    PickOfPick(order, a, aShown, b, bShown);
    PickOfPick(sent, a, aShown, b, bShown);
  }

  lemma {:induction false} NotInMembers(hs: seq<Handle>, gone: seq<Handle>, h: Handle)
    ensures h in NotIn(hs, gone) <==> h in hs && h !in gone
    decreases |hs|
  {
    if hs != [] {
      assert hs == hs[..|hs| - 1] + [hs[|hs| - 1]];
      NotInMembers(hs[..|hs| - 1], gone, h);
    }
  }

  lemma {:induction false} NotInIsDistinct(hs: seq<Handle>, gone: seq<Handle>)
    requires DistinctHandles(hs)
    ensures DistinctHandles(NotIn(hs, gone))
    decreases |hs|
  {
    if hs != [] {
      NotInIsDistinct(hs[..|hs| - 1], gone);
      NotInMembers(hs[..|hs| - 1], gone, hs[|hs| - 1]);
    }
  }

  lemma {:induction false} PickOfNotIn(hs: seq<Handle>, gone: seq<Handle>, objects: Objects, shown: seq<MessageId>)
    requires forall h :: h in gone ==> !Waits(objects, shown, h)
    ensures Pick(NotIn(hs, gone), objects, shown) == Pick(hs, objects, shown)
    decreases |hs|
  {
    if hs != [] {
      var init, last := hs[..|hs| - 1], hs[|hs| - 1];
      PickOfNotIn(init, gone, objects, shown);
      PickAppend(NotIn(init, gone), [last], objects, shown);
      assert [last][..0] == [];
      assert last in gone ==> NotIn(hs, gone) == NotIn(init, gone);
    }
  }

  /** Taking entries out of the order keeps it an order. */
  lemma NotInKeepsOrder(order: seq<Handle>, gone: seq<Handle>, sent: seq<Handle>, objects: Objects,
                        shown: seq<MessageId>, known: map<IdempotencyKey, Handle>)
    requires Ordered(order, sent, objects, shown, known) && forall h :: h in gone ==> !Waits(objects, shown, h)
    ensures Ordered(NotIn(order, gone), sent, objects, shown, known)
  {
    NotInIsDistinct(order, gone);
    PickOfNotIn(order, gone, objects, shown);
    var rest := NotIn(order, gone);
    forall i | 0 <= i < |rest|
      ensures rest[i].LocalSend? && rest[i].idempotencyKey in known && rest[i] in objects && !objects[rest[i]].discarded
    {
      NotInMembers(order, gone, rest[i]);
    }
  }

  lemma DiscardKeepsLinked(c: Chat, h: Handle, order: seq<Handle>)
    requires Linked(c) && CanRetry(c, h)
    ensures Linked(c.(objects := c.objects[h := c.objects[h].(discarded := true)],
                      localOrder := order, byUiKey := c.byUiKey - {h}))
    ensures h.LocalSend?
  {
    var d := c.(objects := c.objects[h := c.objects[h].(discarded := true)],
                localOrder := order, byUiKey := c.byUiKey - {h});
    assert h.ServerMessage? ==> ServerOk(c, h.messageId);
    forall s ensures ServerOk(d, s) && OccupantOk(d, s) {
      assert ServerOk(c, s) && OccupantOk(c, s);
    }
    forall k ensures KeyOk(d, k) {
      assert KeyOk(c, k);
    }
    forall id | id in d.byIdempotencyKey ensures LocalOk(d, id) {
      assert LocalOk(c, id);
    }
  }

  lemma DiscardKeepsOrder(order: seq<Handle>, sent: seq<Handle>, objects: Objects, shown: seq<MessageId>,
                          known: map<IdempotencyKey, Handle>, h: Handle)
    requires Ordered(order, sent, objects, shown, known) && h in objects
    ensures Ordered(NotIn(order, [h]), sent, objects[h := objects[h].(discarded := true)], shown, known)
  {
    var b := objects[h := objects[h].(discarded := true)];
    PickBothLess(order, sent, objects, shown, b, shown);
    NotInIsDistinct(order, [h]);
    PickOfNotIn(order, [h], b, shown);
    var rest := NotIn(order, [h]);
    forall i | 0 <= i < |rest|
      ensures rest[i].LocalSend? && rest[i].idempotencyKey in known && rest[i] in b && !b[rest[i]].discarded
    {
      NotInMembers(order, [h], rest[i]);
    }
  }

  lemma DiscardKeeps(c: Chat, sent: seq<Handle>, key: Handle)
    requires Good(c, sent)
    ensures Good(Discard(c, key), sent)
  {
    if key in c.byUiKey {
      var h := Canonical(c.objects, c.byUiKey[key]);
      if CanRetry(c, h) {
        DiscardKeepsLinked(c, h, NotIn(c.localOrder, [h]));
        DiscardKeepsOrder(c.localOrder, sent, c.objects, c.shown, c.byIdempotencyKey, h);
      }
    }
  }

  lemma AttachKeepsLinked(c: Chat, id: IdempotencyKey, s: MessageId)
    requires Linked(c) && id in c.byIdempotencyKey && LocalSend(id) in c.byUiKey
    requires !ConflictsOnAccept(c, id, s) && c.objects[LocalSend(id)].serverId.None?
    ensures Linked(Attach(c, LocalSend(id), s))
  {
    var h := LocalSend(id);
    var d := Attach(c, h, s);
    assert LocalOk(c, id) && OccupantOk(c, s) && ServerOk(c, s);
    assert s in c.byServerId ==> c.byServerId[s] == ServerMessage(s);
    forall x ensures ServerOk(d, x) && OccupantOk(d, x) {
      assert ServerOk(c, x) && OccupantOk(c, x);
    }
    forall k ensures KeyOk(d, k) {
      assert KeyOk(c, k);
    }
    forall other | other in d.byIdempotencyKey ensures LocalOk(d, other) {
      assert LocalOk(c, other);
    }
  }

  lemma AttachKeepsOrder(order: seq<Handle>, sent: seq<Handle>, a: Objects, b: Objects, shown: seq<MessageId>,
                         known: map<IdempotencyKey, Handle>)
    requires Ordered(order, sent, a, shown, known)
    requires forall h :: h in a ==>
               h in b && b[h].discarded == a[h].discarded && (a[h].serverId.Some? ==> b[h].serverId == a[h].serverId)
    requires forall h: Handle :: h.LocalSend? && h in b ==> h in a
    ensures Ordered(order, sent, b, shown, known)
  {
    PickBothLess(order, sent, a, shown, b, shown);
  }

  lemma AcceptKeeps(c: Chat, sent: seq<Handle>, id: IdempotencyKey, s: MessageId, taken: bool)
    requires Good(c, sent)
    ensures Good(Accept(c, id, s, taken).0, sent)
  {
    var d := Accept(c, id, s, taken).0;
    if d != c {
      assert LocalOk(c, id);
      AttachKeepsLinked(c, id, s);
      AttachKeepsOrder(c.localOrder, sent, c.objects, d.objects, c.shown, c.byIdempotencyKey);
    }
  }

  /** Whatever reaches the timeline, what it displays afterwards shows more than what it displayed before. */
  lemma TimelineShowsMore(v: TimelineSpec.View, inputs: seq<Timeline.Input>, shown: seq<MessageId>, ids: seq<MessageId>)
    requires TimelineSpec.Valid(v) && TimelineCoverage.Enumerates(shown, v)
    requires TimelineCoverage.Enumerates(ids, Timeline.Run(v, inputs))
    ensures ShowsMore(shown, ids)
  {
    var w := Timeline.Run(v, inputs);
    Timeline.RunKeeps(v, inputs);
    forall i | 0 <= i < |shown| ensures shown[i] in ids {
      var s := v.sequenceOf[shown[i]];
      assert s in w.visible && w.records[s].messageId == v.records[s].messageId == shown[i];
    }
  }

  lemma ShowKeeps(c: Chat, sent: seq<Handle>, ids: seq<MessageId>)
    requires Good(c, sent) && ShowsMore(c.shown, ids)
    ensures Good(c.(shown := ids), sent)
  {
    PickBothLess(c.localOrder, sent, c.objects, c.shown, c.objects, ids);
    var d := c.(shown := ids);
    forall s ensures ServerOk(d, s) && OccupantOk(d, s) {
      assert ServerOk(c, s) && OccupantOk(c, s);
    }
    forall k ensures KeyOk(d, k) {
      assert KeyOk(c, k);
    }
    forall id | id in d.byIdempotencyKey ensures LocalOk(d, id) {
      assert LocalOk(c, id);
    }
  }

  // --- Refreshing ---

  lemma MaterialiseKeepsLinked(c: Chat, s: MessageId)
    requires Linked(c)
    ensures Linked(Materialise(c, s))
  {
    var d := Materialise(c, s);
    assert ServerOk(c, s);
    forall x ensures ServerOk(d, x) && OccupantOk(d, x) {
      assert ServerOk(c, x) && OccupantOk(c, x);
    }
    forall k ensures KeyOk(d, k) {
      assert KeyOk(c, k);
    }
    forall id | id in d.byIdempotencyKey ensures LocalOk(d, id) {
      assert LocalOk(c, id);
    }
  }

  /** Objects for server messages leave the local sends alone. */
  ghost predicate SendsKept(a: Objects, b: Objects) {
    && (forall h :: h in a ==> h in b && b[h] == a[h])
    && (forall h: Handle :: h.LocalSend? && h in b ==> h in a)
  }

  lemma {:induction false} MaterialiseAllKeeps(c: Chat, ids: seq<MessageId>)
    requires Linked(c)
    ensures var m := MaterialiseAll(c, ids);
            && Linked(m) && SendsKept(c.objects, m.objects) && m.byIdempotencyKey == c.byIdempotencyKey
            && (m.localOrder, m.keys, m.shown) == (c.localOrder, c.keys, c.shown)
    decreases |ids|
  {
    if ids != [] {
      var init := MaterialiseAll(c, ids[..|ids| - 1]);
      MaterialiseAllKeeps(c, ids[..|ids| - 1]);
      MaterialiseKeepsLinked(init, ids[|ids| - 1]);
      assert ServerOk(init, ids[|ids| - 1]);
    }
  }

  /** What displays a server message carries its id, and is no alias. */
  lemma OccupantIsCanonical(c: Chat, s: MessageId)
    requires Linked(c) && s in c.byServerId
    ensures var h := c.byServerId[s];
            && Canonical(c.objects, h) == h && h in c.objects && c.objects[h].serverId == Some(s)
            && !c.objects[h].discarded && h in c.byUiKey && c.byUiKey[h] == h
  {
    var h := c.byServerId[s];
    assert OccupantOk(c, s) && ServerOk(c, s);
    assert h.LocalSend? ==> LocalOk(c, h.idempotencyKey);
    assert KeyOk(c, h);
  }

  /** What is on display for the timeline: one entry per message, in its order, none twice. */
  lemma OccupantsAreDistinct(c: Chat, ids: seq<MessageId>)
    requires Linked(c) && DistinctIds(ids) && forall i :: 0 <= i < |ids| ==> ids[i] in c.byServerId
    ensures DistinctHandles(Occupants(c, ids))
    ensures forall i :: 0 <= i < |ids| ==> Occupants(c, ids)[i] == c.byServerId[ids[i]]
  {
    forall i | 0 <= i < |ids|
      ensures Occupants(c, ids)[i] == c.byServerId[ids[i]]
      ensures c.byServerId[ids[i]] in c.objects && c.objects[c.byServerId[ids[i]]].serverId == Some(ids[i])
    {
      OccupantIsCanonical(c, ids[i]);
    }
  }

  /** A send in order is on display exactly if it does not wait. */
  lemma DisplayedDoNotWait(c: Chat, ids: seq<MessageId>, h: Handle)
    requires Linked(c) && forall i :: 0 <= i < |ids| ==> ids[i] in c.byServerId
    ensures h in Occupants(c, ids) ==> !Waits(c.objects, ids, h)
    ensures h.LocalSend? && h in c.objects && !c.objects[h].discarded && h !in Occupants(c, ids) ==>
            Waits(c.objects, ids, h)
  {
    if h in Occupants(c, ids) {
      var i :| 0 <= i < |ids| && Occupants(c, ids)[i] == h;
      OccupantIsCanonical(c, ids[i]);
    }
    if h.LocalSend? && h in c.objects && c.objects[h].serverId.Some? && c.objects[h].serverId.value in ids {
      var s := c.objects[h].serverId.value;
      var i :| 0 <= i < |ids| && ids[i] == s;
      assert LocalOk(c, h.idempotencyKey);
      OccupantIsCanonical(c, s);
      assert Occupants(c, ids)[i] == h;
    }
  }

  lemma {:induction false} NotDisplayedIsPicked(c: Chat, hs: seq<Handle>, ids: seq<MessageId>)
    requires Linked(c) && AllKept(c.objects, hs) && (forall i :: 0 <= i < |hs| ==> hs[i].LocalSend?)
    requires forall i :: 0 <= i < |ids| ==> ids[i] in c.byServerId
    ensures NotIn(hs, Occupants(c, ids)) == Pick(hs, c.objects, ids)
    decreases |hs|
  {
    if hs != [] {
      NotDisplayedIsPicked(c, hs[..|hs| - 1], ids);
      DisplayedDoNotWait(c, ids, hs[|hs| - 1]);
    }
  }

  lemma ShownIsMaterialised(c: Chat)
    ensures forall i :: 0 <= i < |c.shown| ==> c.shown[i] in MaterialiseAll(c, c.shown).byServerId
  {
    forall i | 0 <= i < |c.shown| ensures c.shown[i] in MaterialiseAll(c, c.shown).byServerId {
      MaterialisedAreKnown(c, c.shown, c.shown[i]);
    }
  }

  lemma PickMembers(hs: seq<Handle>, objects: Objects, shown: seq<MessageId>, h: Handle)
    ensures h in Pick(hs, objects, shown) <==> h in hs && Waits(objects, shown, h)
    decreases |hs|
  {
    if hs != [] {
      assert hs == hs[..|hs| - 1] + [hs[|hs| - 1]];
      PickMembers(hs[..|hs| - 1], objects, shown, h);
    }
  }

  /** A refresh is the same as looking everything up, and leaves in order exactly what waits. */
  lemma RefreshShape(c: Chat, sent: seq<Handle>)
    requires Good(c, sent)
    ensures var m := MaterialiseAll(c, c.shown);
            && Linked(m) && SendsKept(c.objects, m.objects)
            && (forall i :: 0 <= i < |c.shown| ==> c.shown[i] in m.byServerId)
            && Ordered(c.localOrder, sent, m.objects, c.shown, c.byIdempotencyKey)
            && Refresh(c) == m.(localOrder := Pick(sent, m.objects, c.shown),
                                keys := Occupants(m, c.shown) + Pick(sent, m.objects, c.shown))
  {
    var m := MaterialiseAll(c, c.shown);
    MaterialiseAllKeeps(c, c.shown);
    ShownIsMaterialised(c);
    AttachKeepsOrder(c.localOrder, sent, c.objects, m.objects, c.shown, c.byIdempotencyKey);
    NotDisplayedIsPicked(m, c.localOrder, c.shown);
  }

  lemma LinkedIgnoresLists(c: Chat, order: seq<Handle>, keys: seq<Handle>)
    requires Linked(c)
    ensures Linked(c.(localOrder := order, keys := keys))
  {
    var d := c.(localOrder := order, keys := keys);
    forall s ensures ServerOk(d, s) && OccupantOk(d, s) {
      assert ServerOk(c, s) && OccupantOk(c, s);
    }
    forall k ensures KeyOk(d, k) {
      assert KeyOk(c, k);
    }
    forall id | id in d.byIdempotencyKey ensures LocalOk(d, id) {
      assert LocalOk(c, id);
    }
  }

  /** The two parts of the displayed keys share nothing, and neither holds a key twice. */
  lemma DisplayIsDistinct(m: Chat, order: seq<Handle>, sent: seq<Handle>, shown: seq<MessageId>)
    requires Linked(m) && DistinctIds(shown) && forall i :: 0 <= i < |shown| ==> shown[i] in m.byServerId
    requires Ordered(order, sent, m.objects, shown, m.byIdempotencyKey)
    ensures DistinctHandles(Occupants(m, shown) + Pick(sent, m.objects, shown))
    ensures DistinctHandles(Pick(sent, m.objects, shown))
  {
    NotDisplayedIsPicked(m, order, shown);
    NotInIsDistinct(order, Occupants(m, shown));
    OccupantsAreDistinct(m, shown);
    var rest := Pick(sent, m.objects, shown);
    forall i | 0 <= i < |rest| ensures rest[i] !in Occupants(m, shown) {
      NotInMembers(order, Occupants(m, shown), rest[i]);
    }
  }

  lemma RefreshKeeps(c: Chat, sent: seq<Handle>)
    requires Good(c, sent)
    ensures Good(Refresh(c), sent)
  {
    var m := MaterialiseAll(c, c.shown);
    RefreshShape(c, sent);
    MaterialiseAllKeeps(c, c.shown);
    DisplayIsDistinct(m, c.localOrder, sent, c.shown);
    NotDisplayedIsPicked(m, c.localOrder, c.shown);
    forall h | h in Occupants(m, c.shown) ensures !Waits(m.objects, c.shown, h) {
      DisplayedDoNotWait(m, c.shown, h);
    }
    NotInKeepsOrder(c.localOrder, Occupants(m, c.shown), sent, m.objects, c.shown, c.byIdempotencyKey);
    LinkedIgnoresLists(m, Refresh(c).localOrder, Refresh(c).keys);
  }

  // --- Whole runs ---

  lemma StepKeeps(c: Chat, sent: seq<Handle>, e: Event)
    requires Good(c, sent)
    ensures Good(Step(c, e), SentAfter(c, sent, e))
  {
    match e {
      case SendText(id, fails) => if id !in c.byIdempotencyKey { SendKeeps(c, sent, id, fails); }
      case RetryKey(key, fails) =>
        if key in c.byUiKey { TransmitKeeps(c, sent, Canonical(c.objects, c.byUiKey[key]), fails); }
      case DiscardKey(key) => DiscardKeeps(c, sent, key);
      case Rejected(id) => StatusChangeKeeps(c, sent, Reject(c, id).objects);
      case Disconnected =>
        FailAllIsStatusChange(c.objects, c.localOrder);
        StatusChangeKeeps(c, sent, FailAll(c.objects, c.localOrder));
      case AcceptedAs(id, s, taken) => AcceptKeeps(c, sent, id, s, taken);
      case TimelineShows(ids) => if ShowsMore(c.shown, ids) { ShowKeeps(c, sent, ids); }
      case RefreshKeys => RefreshKeeps(c, sent);
    }
  }

  function Run(c: Chat, events: seq<Event>): Chat
    decreases |events|
  {
    if events == [] then c else Run(Step(c, events[0]), events[1..])
  }

  /** The sends of a run, in the order they were made. */
  function Sends(c: Chat, sent: seq<Handle>, events: seq<Event>): seq<Handle>
    decreases |events|
  {
    if events == [] then sent else Sends(Step(c, events[0]), SentAfter(c, sent, events[0]), events[1..])
  }

  lemma {:induction false} RunKeeps(c: Chat, sent: seq<Handle>, events: seq<Event>)
    requires Good(c, sent)
    ensures Good(Run(c, events), Sends(c, sent, events))
    decreases |events|
  {
    if events != [] {
      StepKeeps(c, sent, events[0]);
      RunKeeps(Step(c, events[0]), SentAfter(c, sent, events[0]), events[1..]);
    }
  }

  lemma EmptyIsGood()
    ensures Good(EMPTY_CHAT, [])
  {
  }

  // --- What is displayed ---

  /** A local send stands for a server message once it is accepted as that message. */
  ghost predicate StandsFor(objects: Objects, h: Handle, s: MessageId) {
    h.LocalSend? && h in objects && objects[h].serverId == Some(s)
  }

  /** A server message is displayed by the send that stands for it, or else by itself. */
  ghost predicate Displays(c: Chat, k: Handle, s: MessageId) {
    StandsFor(c.objects, k, s) || (k == ServerMessage(s) && forall h :: !StandsFor(c.objects, h, s))
  }

  /**
   * After a refresh, in any run: first the timeline's messages in its order, each as the local send
   * that stands for it if there is one; then, in the order they were sent, the sends that are
   * neither discarded nor among them. Every key leads to its object, and none occurs twice.
   */
  lemma KeysDisplayTheChat(events: seq<Event>)
    ensures var c := Run(EMPTY_CHAT, events);
            var sent := Sends(EMPTY_CHAT, [], events);
            var d := Refresh(c);
            && DistinctHandles(c.keys) && DistinctHandles(d.keys)
            && |c.shown| <= |d.keys| && d.keys[|c.shown|..] == Pick(sent, d.objects, c.shown)
            && (forall i :: 0 <= i < |c.shown| ==>
                  Displays(d, d.keys[i], c.shown[i]))
            && (forall i :: 0 <= i < |d.keys| ==>
                  d.keys[i] in d.byUiKey && Canonical(d.objects, d.byUiKey[d.keys[i]]) == d.keys[i])
  {
    var c := Run(EMPTY_CHAT, events);
    var sent := Sends(EMPTY_CHAT, [], events);
    EmptyIsGood();
    RunKeeps(EMPTY_CHAT, [], events);
    RefreshDisplays(c, sent);
  }

  lemma OccupantStandsFor(c: Chat, s: MessageId)
    requires Linked(c) && s in c.byServerId
    ensures Displays(c, c.byServerId[s], s)
  {
    OccupantIsCanonical(c, s);
    assert OccupantOk(c, s);
    forall h | StandsFor(c.objects, h, s) ensures c.byServerId[s] == h {
      assert LocalOk(c, h.idempotencyKey);
    }
  }

  lemma RefreshDisplays(c: Chat, sent: seq<Handle>)
    requires Good(c, sent)
    ensures var d := Refresh(c);
            && DistinctHandles(d.keys)
            && |c.shown| <= |d.keys| && d.keys[|c.shown|..] == Pick(sent, d.objects, c.shown)
            && (forall i :: 0 <= i < |c.shown| ==>
                  Displays(d, d.keys[i], c.shown[i]))
            && (forall i :: 0 <= i < |d.keys| ==>
                  d.keys[i] in d.byUiKey && Canonical(d.objects, d.byUiKey[d.keys[i]]) == d.keys[i])
  {
    var d, m := Refresh(c), MaterialiseAll(c, c.shown);
    RefreshShape(c, sent);
    RefreshKeeps(c, sent);
    OccupantsAreDistinct(m, c.shown);
    forall i | 0 <= i < |c.shown|
      ensures Displays(d, d.keys[i], c.shown[i])
      ensures d.keys[i] in d.byUiKey && Canonical(d.objects, d.byUiKey[d.keys[i]]) == d.keys[i]
    {
      OccupantStandsFor(m, c.shown[i]);
      OccupantIsCanonical(m, c.shown[i]);
    }
    forall i | |c.shown| <= i < |d.keys|
      ensures d.keys[i] in d.byUiKey && Canonical(d.objects, d.byUiKey[d.keys[i]]) == d.keys[i]
    {
      var h := d.localOrder[i - |c.shown|];
      assert h == d.keys[i] && h.LocalSend? && LocalOk(d, h.idempotencyKey) && KeyOk(d, h);
    }
  }

  /** Every send that is not discarded has its own key on display, and a discarded one has none. */
  lemma EverySendHasItsKey(events: seq<Event>, id: IdempotencyKey)
    requires id in Run(EMPTY_CHAT, events).byIdempotencyKey
    ensures var d := Refresh(Run(EMPTY_CHAT, events));
            LocalSend(id) in d.objects && (LocalSend(id) in d.keys <==> !d.objects[LocalSend(id)].discarded)
  {
    var c := Run(EMPTY_CHAT, events);
    var sent := Sends(EMPTY_CHAT, [], events);
    EmptyIsGood();
    RunKeeps(EMPTY_CHAT, [], events);
    RefreshDisplays(c, sent);
    RefreshShape(c, sent);
    var d, h := Refresh(c), LocalSend(id);
    assert LocalOk(c, id) && h in sent;
    PickMembers(sent, d.objects, c.shown, h);
    if Waits(d.objects, c.shown, h) {
      var i :| 0 <= i < |d.keys[|c.shown|..]| && d.keys[|c.shown|..][i] == h;
      assert d.keys[|c.shown| + i] == h;
    } else if !d.objects[h].discarded {
      var i :| 0 <= i < |c.shown| && c.shown[i] == d.objects[h].serverId.value;
      assert StandsFor(d.objects, h, c.shown[i]);
      RefreshKeeps(c, sent);
      OnlyOneStandsFor(d, h, d.keys[i], c.shown[i]);
    } else {
      forall i | 0 <= i < |d.keys| ensures d.keys[i] != h {
        DisplayedIsKept(c, sent, i);
      }
    }
  }

  lemma OnlyOneStandsFor(c: Chat, a: Handle, b: Handle, s: MessageId)
    requires Linked(c) && StandsFor(c.objects, a, s) && StandsFor(c.objects, b, s)
    ensures a == b
  {
    assert LocalOk(c, a.idempotencyKey) && LocalOk(c, b.idempotencyKey);
  }

  lemma DisplayedIsKept(c: Chat, sent: seq<Handle>, i: nat)
    requires Good(c, sent) && i < |Refresh(c).keys|
    ensures var d := Refresh(c); d.keys[i] in d.objects && !d.objects[d.keys[i]].discarded
  {
    var m := MaterialiseAll(c, c.shown);
    RefreshShape(c, sent);
    OccupantsAreDistinct(m, c.shown);
    if i < |c.shown| {
      OccupantIsCanonical(m, c.shown[i]);
    } else {
      PickMembers(sent, m.objects, c.shown, Refresh(c).keys[i]);
    }
  }

  /** Alias chains have length one at most: they lead from a server message to the send that stands for it. */
  lemma AliasesAreShort(c: Chat, sent: seq<Handle>, h: Handle)
    requires Good(c, sent) && h in c.objects && c.objects[h].alias.Some?
    ensures h.ServerMessage? && StandsFor(c.objects, Canonical(c.objects, h), h.messageId)
    ensures Canonical(c.objects, Canonical(c.objects, h)) == Canonical(c.objects, h)
  {
    assert h.LocalSend? ==> LocalOk(c, h.idempotencyKey);
    assert ServerOk(c, h.messageId) && OccupantOk(c, h.messageId);
    OccupantIsCanonical(c, h.messageId);
  }

  // --- Acceptance ---

  /** An acceptance conflicts exactly if another send stands for the message, or this one for another message. */
  lemma ConflictExactly(c: Chat, sent: seq<Handle>, id: IdempotencyKey, s: MessageId, taken: bool)
    requires Good(c, sent)
    ensures Accept(c, id, s, taken).1 == IdentityConflict <==>
            || (exists h :: h != LocalSend(id) && StandsFor(c.objects, h, s))
            || (exists t :: t != s && StandsFor(c.objects, LocalSend(id), t))
  {
    assert OccupantOk(c, s);
    forall h | StandsFor(c.objects, h, s) ensures s in c.byServerId && c.byServerId[s] == h {
      assert LocalOk(c, h.idempotencyKey);
    }
    if s in c.byServerId && c.byServerId[s].LocalSend? {
      assert StandsFor(c.objects, c.byServerId[s], s);
    }
    if id in c.byIdempotencyKey && c.objects[LocalSend(id)].serverId.Some? {
      assert StandsFor(c.objects, LocalSend(id), c.objects[LocalSend(id)].serverId.value);
    }
  }

  /** The two chats agree on their local sends. */
  ghost predicate SameSends(a: Chat, b: Chat) {
    && a.byIdempotencyKey == b.byIdempotencyKey
    && forall id :: id in a.byIdempotencyKey ==>
         LocalSend(id) in a.objects && LocalSend(id) in b.objects
         && a.objects[LocalSend(id)] == b.objects[LocalSend(id)]
  }

  lemma StandsForSame(a: Chat, b: Chat, h: Handle, s: MessageId)
    requires Linked(a) && Linked(b) && SameSends(a, b)
    ensures StandsFor(a.objects, h, s) <==> StandsFor(b.objects, h, s)
  {
  }

  lemma SameDisplay(a: Chat, b: Chat, j: Handle, k: Handle, s: MessageId)
    requires Linked(a) && Linked(b) && SameSends(a, b) && Displays(a, j, s) && Displays(b, k, s)
    ensures j == k
  {
    StandsForSame(a, b, j, s);
    StandsForSame(a, b, k, s);
    if StandsFor(a.objects, j, s) {
      OnlyOneStandsFor(b, j, k, s);
    }
  }

  lemma SameParts(x: seq<Handle>, y: seq<Handle>, n: nat)
    requires n <= |x| && n <= |y| && (forall i :: 0 <= i < n ==> x[i] == y[i]) && x[n..] == y[n..]
    ensures x == y
  {
    assert x[..n] == y[..n];
    assert x == x[..n] + x[n..] && y == y[..n] + y[n..];
  }

  /** What is displayed depends on the sends and on what the timeline shows, not on how it came about. */
  lemma KeysDependOnSends(a: Chat, b: Chat, sent: seq<Handle>)
    requires Good(a, sent) && Good(b, sent) && SameSends(a, b) && a.shown == b.shown
    ensures Refresh(a).keys == Refresh(b).keys
  {
    var x, y, n := Refresh(a), Refresh(b), |a.shown|;
    RefreshDisplays(a, sent);
    RefreshDisplays(b, sent);
    RefreshSameSends(a, sent);
    RefreshSameSends(b, sent);
    PickSame(sent, x.objects, y.objects, a.shown);
    forall i | 0 <= i < n ensures x.keys[i] == y.keys[i] {
      SameDisplay(x, y, x.keys[i], y.keys[i], a.shown[i]);
    }
    SameParts(x.keys, y.keys, n);
  }

  lemma RefreshSameSends(c: Chat, sent: seq<Handle>)
    requires Good(c, sent)
    ensures SameSends(c, Refresh(c)) && Linked(Refresh(c)) && Refresh(c).shown == c.shown
  {
    RefreshKeeps(c, sent);
    MaterialiseAllKeeps(c, c.shown);
    forall id | id in c.byIdempotencyKey ensures LocalSend(id) in c.objects {
      assert LocalOk(c, id);
    }
  }

  lemma SameConflicts(a: Chat, b: Chat, sent: seq<Handle>, id: IdempotencyKey, s: MessageId, taken: bool)
    requires Good(a, sent) && Good(b, sent) && SameSends(a, b)
    ensures Accept(a, id, s, taken).1 == Accept(b, id, s, taken).1
  {
    ConflictExactly(a, sent, id, s, taken);
    ConflictExactly(b, sent, id, s, taken);
    forall h, t ensures StandsFor(a.objects, h, t) <==> StandsFor(b.objects, h, t) {
      StandsForSame(a, b, h, t);
    }
  }

  /** What an acceptance makes of a send. */
  function AcceptedSend(m: Managed, s: MessageId): Managed {
    if m.discarded then m else m.(serverId := Some(s), local := None)
  }

  lemma AcceptChangesOneSend(c: Chat, sent: seq<Handle>, id: IdempotencyKey, s: MessageId, x: IdempotencyKey)
    requires Good(c, sent) && !ConflictsOnAccept(c, id, s) && x in c.byIdempotencyKey
    ensures var d := Accept(c, id, s, true).0;
            var h := LocalSend(x);
            && h in c.objects && h in d.objects && d.byIdempotencyKey == c.byIdempotencyKey && d.shown == c.shown
            && d.objects[h] == if x == id then AcceptedSend(c.objects[h], s) else c.objects[h]
  {
    assert LocalOk(c, x) && OccupantOk(c, s);
    if id in c.byIdempotencyKey {
      assert LocalOk(c, id);
    }
  }

  lemma AcceptSameSends(a: Chat, b: Chat, sent: seq<Handle>, id: IdempotencyKey, s: MessageId, taken: bool)
    requires Good(a, sent) && Good(b, sent) && SameSends(a, b)
    ensures SameSends(Accept(a, id, s, taken).0, Accept(b, id, s, taken).0)
  {
    SameConflicts(a, b, sent, id, s, taken);
    if taken && !ConflictsOnAccept(a, id, s) {
      assert Accept(b, id, s, taken).1 == Applied;
      forall x | x in a.byIdempotencyKey
        ensures var h := LocalSend(x);
                var d, e := Accept(a, id, s, true).0, Accept(b, id, s, true).0;
                h in d.objects && h in e.objects && d.objects[h] == e.objects[h]
      {
        AcceptChangesOneSend(a, sent, id, s, x);
        AcceptChangesOneSend(b, sent, id, s, x);
      }
    }
  }

  lemma ShowThenAccept(c: Chat, sent: seq<Handle>, id: IdempotencyKey, s: MessageId, taken: bool, ids: seq<MessageId>)
    requires Good(c, sent) && ShowsMore(c.shown, ids)
    ensures var d := Accept(Refresh(c.(shown := ids)), id, s, taken).0;
            Good(d, sent) && d.shown == ids && SameSends(Accept(c, id, s, taken).0, d)
  {
    ShowKeeps(c, sent, ids);
    RefreshKeeps(c.(shown := ids), sent);
    RefreshSameSends(c.(shown := ids), sent);
    var a := Refresh(c.(shown := ids));
    AcceptKeeps(a, sent, id, s, taken);
    AcceptSameSends(c, a, sent, id, s, taken);
  }

  lemma AcceptThenShow(c: Chat, sent: seq<Handle>, id: IdempotencyKey, s: MessageId, taken: bool, ids: seq<MessageId>)
    requires Good(c, sent) && ShowsMore(c.shown, ids)
    ensures var accepted := Accept(c, id, s, taken).0;
            var b := Refresh(accepted);
            && ShowsMore(b.shown, ids)
            && Good(b.(shown := ids), sent) && SameSends(accepted, b.(shown := ids))
  {
    var accepted := Accept(c, id, s, taken).0;
    AcceptKeeps(c, sent, id, s, taken);
    RefreshKeeps(accepted, sent);
    RefreshSameSends(accepted, sent);
    ShowKeeps(Refresh(accepted), sent, ids);
  }

  lemma SameSendsIsTransitive(a: Chat, b: Chat, c: Chat)
    requires SameSends(a, b) && SameSends(a, c)
    ensures SameSends(b, c)
  {
  }

  /** Whether a message is shown before its send is accepted or after, the chat ends up displaying the same keys. */
  lemma EitherOrderDisplaysTheSame(c: Chat, sent: seq<Handle>, id: IdempotencyKey, s: MessageId, taken: bool,
                                   ids: seq<MessageId>)
    requires Good(c, sent) && ShowsMore(c.shown, ids)
    ensures var shownFirst := Accept(Refresh(c.(shown := ids)), id, s, taken).0;
            var acceptedFirst := Refresh(Accept(c, id, s, taken).0).(shown := ids);
            Refresh(shownFirst).keys == Refresh(acceptedFirst).keys
  {
    ShowThenAccept(c, sent, id, s, taken, ids);
    AcceptThenShow(c, sent, id, s, taken, ids);
    var a := Accept(Refresh(c.(shown := ids)), id, s, taken).0;
    var b := Refresh(Accept(c, id, s, taken).0).(shown := ids);
    SameSendsIsTransitive(Accept(c, id, s, taken).0, a, b);
    KeysDependOnSends(a, b, sent);
  }
}
