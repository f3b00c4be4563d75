/** The client's timeline as it is kept: maps, sets and one list, all updated in place. */
module StreamMessagesTimeline {
  import opened Collections
  import opened Messages
  import opened Contracts
  import opened TimelineCoverage
  import opened TimelineRuns
  import Spec = TimelineSpec
  import opened TimelineSpec

  /** Equality as the timeline decides it: everything but the target, which was checked before. */
  predicate MessagesEqual(left: PublicMessage, right: PublicMessage) {
    && left.messageId == right.messageId
    && left.streamId == right.streamId
    && left.sequence == right.sequence
    && left.senderActorId == right.senderActorId
    && left.createdAt == right.createdAt
    && left.sentAtClient == right.sentAtClient
    && match left.body
       case Tombstone(deletedAt) => right.body.Tombstone? && deletedAt == right.body.deletedAt
       case Text(text, editedAt) => right.body.Text? && text == right.body.text && editedAt == right.body.editedAt
  }

  // --- How the fields stand for a view ---

  /** The set of ids stands for the set of sequences. */
  ghost predicate Listed(ids: set<MessageId>, sequences: set<Sequence>, sequenceOf: map<MessageId, Sequence>) {
    forall id :: id in ids <==> id in sequenceOf && sequenceOf[id] in sequences
  }

  /** Ids by sequence stand for a set of sequences. */
  ghost predicate Indexes(ids: map<Sequence, MessageId>, sequences: set<Sequence>,
                          records: map<Sequence, PublicMessage>)
  {
    && (forall s :: s in ids <==> s in sequences)
    && (forall s :: s in ids ==> s in records && ids[s] == records[s].messageId)
  }

  /** Records by id, and ids by sequence, stand for records by sequence. */
  ghost predicate RecordsAgree(byId: map<MessageId, PublicMessage>, ids: map<Sequence, MessageId>,
                               records: map<Sequence, PublicMessage>, sequenceOf: map<MessageId, Sequence>)
  {
    && (forall id :: id in byId <==> id in sequenceOf)
    && (forall id :: id in byId ==> sequenceOf[id] in records && byId[id] == records[sequenceOf[id]])
    && Indexes(ids, records.Keys, records)
  }

  ghost predicate ListsAgree(
    list: seq<MessageId>, shown: set<MessageId>, accepted: set<MessageId>, buffer: map<Sequence, MessageId>, v: View)
  {
    && Lists(list, v.records, v.sequenceOf, v.visible)
    && Listed(shown, v.visible, v.sequenceOf)
    && Listed(accepted, v.accepted, v.sequenceOf)
    && Indexes(buffer, v.buffered, v.records)
  }

  lemma RegisterRecordsAgree(byId: map<MessageId, PublicMessage>, ids: map<Sequence, MessageId>, v: View,
                             m: PublicMessage)
    requires Indexed(v) && Check(v, m) == Ok && m.messageId !in byId && RecordsAgree(byId, ids, v.records, v.sequenceOf)
    ensures m.sequence !in v.records
    ensures var w := Register(v, m);
            RecordsAgree(byId[m.messageId := m], ids[m.sequence := m.messageId], w.records, w.sequenceOf)
  {
    assert m.messageId !in v.sequenceOf;
  }

  lemma RegisterKeepsOrder(list: seq<MessageId>, v: View, m: PublicMessage)
    requires Indexed(v) && Check(v, m) == Ok && m.sequence !in v.records
    requires Lists(list, v.records, v.sequenceOf, v.visible)
    ensures var w := Register(v, m); Lists(list, w.records, w.sequenceOf, w.visible)
  {
    assert m.messageId !in v.sequenceOf;
  }

  lemma RegisterKeepsListed(ids: set<MessageId>, sequences: set<Sequence>, v: View, m: PublicMessage)
    requires Indexed(v) && Check(v, m) == Ok && m.sequence !in v.records && m.sequence !in sequences
    requires Listed(ids, sequences, v.sequenceOf)
    ensures Listed(ids, sequences, Register(v, m).sequenceOf)
  {
    assert m.messageId !in v.sequenceOf;
  }

  /** Registering a new message does not disturb the lists of messages already known. */
  lemma RegisterListsAgree(
    list: seq<MessageId>, shown: set<MessageId>, accepted: set<MessageId>, buffer: map<Sequence, MessageId>,
    v: View, m: PublicMessage)
    requires Indexed(v) && Check(v, m) == Ok && m.sequence !in v.records
    requires ListsAgree(list, shown, accepted, buffer, v)
    ensures ListsAgree(list, shown, accepted, buffer, Register(v, m))
  {
    RegisterKeepsOrder(list, v, m);
    RegisterKeepsListed(shown, v.visible, v, m);
    RegisterKeepsListed(accepted, v.accepted, v, m);
    assert Indexes(buffer, v.buffered, Register(v, m).records);
  }

  /** Replacing a known record disturbs no index. */
  lemma ReplaceKeepsIndexed(v: View, m: PublicMessage)
    requires Indexed(v) && Check(v, m) == Ok && m.messageId in v.sequenceOf
    ensures m.sequence in v.records && v.records[m.sequence].messageId == m.messageId
    ensures Indexed(v.(records := v.records[m.sequence := m]))
  {
  }

  lemma ReplaceRecordsAgree(byId: map<MessageId, PublicMessage>, ids: map<Sequence, MessageId>, v: View,
                            m: PublicMessage)
    requires Indexed(v) && m.sequence in v.records && v.records[m.sequence].messageId == m.messageId
    requires RecordsAgree(byId, ids, v.records, v.sequenceOf)
    ensures RecordsAgree(byId[m.messageId := m], ids, v.records[m.sequence := m], v.sequenceOf)
  {
  }

  lemma ReplaceListsAgree(
    list: seq<MessageId>, shown: set<MessageId>, accepted: set<MessageId>, buffer: map<Sequence, MessageId>,
    v: View, m: PublicMessage)
    requires Indexed(v) && m.sequence in v.records && v.records[m.sequence].messageId == m.messageId
    requires ListsAgree(list, shown, accepted, buffer, v)
    ensures ListsAgree(list, shown, accepted, buffer, v.(records := v.records[m.sequence := m]))
  {
    var w := v.(records := v.records[m.sequence := m]);
    assert Lists(list, w.records, w.sequenceOf, w.visible);
    assert Indexes(buffer, w.buffered, w.records);
  }

  /** Splicing an id in before position `index`. */
  function Splice(ids: seq<MessageId>, index: nat, id: MessageId): seq<MessageId>
    requires index <= |ids|
  {
    ids[..index] + [id] + ids[index..]
  }

  lemma SpliceKeepsOrder(ids: seq<MessageId>, sequenceOf: map<MessageId, Sequence>, id: MessageId, index: nat, i: nat,
                         j: nat)
    requires index <= |ids| && i < j <= |ids|
    requires id in sequenceOf && forall k :: 0 <= k < |ids| ==> ids[k] in sequenceOf
    requires forall k, l :: 0 <= k < l < |ids| ==> sequenceOf[ids[k]] < sequenceOf[ids[l]]
    requires forall k :: 0 <= k < index ==> sequenceOf[ids[k]] < sequenceOf[id]
    requires forall k :: index <= k < |ids| ==> sequenceOf[id] < sequenceOf[ids[k]]
    ensures var spliced := Splice(ids, index, id);
            spliced[i] in sequenceOf && spliced[j] in sequenceOf && sequenceOf[spliced[i]] < sequenceOf[spliced[j]]
  {
  }

  lemma SpliceHolds(ids: seq<MessageId>, index: nat, id: MessageId, x: MessageId)
    requires index <= |ids| && (x in ids || x == id)
    ensures x in Splice(ids, index, id)
  {
    var spliced := Splice(ids, index, id);
    assert spliced[index] == id;
    if x in ids {
      var i :| 0 <= i < |ids| && ids[i] == x;
      assert spliced[if i < index then i else i + 1] == x;
    }
  }

  lemma SpliceKeepsListed(ids: seq<MessageId>, sequenceOf: map<MessageId, Sequence>, visible: set<Sequence>,
                          id: MessageId, index: nat, i: nat)
    requires index <= |ids| && i <= |ids| && id in sequenceOf
    requires forall k :: 0 <= k < |ids| ==> ids[k] in sequenceOf && sequenceOf[ids[k]] in visible
    ensures var x := Splice(ids, index, id)[i]; x in sequenceOf && sequenceOf[x] in visible + {sequenceOf[id]}
  {
  }

  /** Inserting an id at the place of its sequence keeps the list in order. */
  lemma SpliceLists(ids: seq<MessageId>, records: map<Sequence, PublicMessage>,
                    sequenceOf: map<MessageId, Sequence>, visible: set<Sequence>, id: MessageId, index: nat)
    requires Lists(ids, records, sequenceOf, visible) && index <= |ids|
    requires id in sequenceOf && sequenceOf[id] in records && records[sequenceOf[id]].messageId == id
    requires forall i :: 0 <= i < index ==> sequenceOf[ids[i]] < sequenceOf[id]
    requires forall i :: index <= i < |ids| ==> sequenceOf[id] < sequenceOf[ids[i]]
    ensures Lists(Splice(ids, index, id), records, sequenceOf, visible + {sequenceOf[id]})
  {
    var spliced := Splice(ids, index, id);
    forall i | 0 <= i < |spliced|
      ensures spliced[i] in sequenceOf && sequenceOf[spliced[i]] in visible + {sequenceOf[id]}
    {
      SpliceKeepsListed(ids, sequenceOf, visible, id, index, i);
    }
    forall i, j | 0 <= i < j < |spliced|
      ensures sequenceOf[spliced[i]] < sequenceOf[spliced[j]]
    {
      SpliceKeepsOrder(ids, sequenceOf, id, index, i, j);
    }
    forall t | t in visible + {sequenceOf[id]} ensures t in records && records[t].messageId in spliced {
      SpliceHolds(ids, index, id, records[t].messageId);
    }
  }

  /** A registered message that is not on display is spliced in. */
  lemma SpliceListsAgree(
    list: seq<MessageId>, shown: set<MessageId>, accepted: set<MessageId>, buffer: map<Sequence, MessageId>,
    v: View, m: PublicMessage, index: nat)
    requires Indexed(v) && m.sequence in v.records && m.sequence !in v.visible
    requires m.messageId == v.records[m.sequence].messageId
    requires ListsAgree(list, shown, accepted, buffer, v) && index <= |list|
    requires forall i :: 0 <= i < index ==> v.sequenceOf[list[i]] < m.sequence
    requires forall i :: index <= i < |list| ==> m.sequence < v.sequenceOf[list[i]]
    ensures ListsAgree(Splice(list, index, m.messageId), shown + {m.messageId},
                       accepted - {m.messageId}, buffer - {m.sequence}, Show(v, m))
  {
    var w := Show(v, m);
    SpliceLists(list, v.records, v.sequenceOf, v.visible, m.messageId, index);
    assert Listed(shown + {m.messageId}, w.visible, w.sequenceOf);
    assert Listed(accepted - {m.messageId}, w.accepted, w.sequenceOf);
    assert Indexes(buffer - {m.sequence}, w.buffered, w.records);
  }

  /** A message already on display only leaves the buffer. */
  lemma ShownListsAgree(
    list: seq<MessageId>, shown: set<MessageId>, accepted: set<MessageId>, buffer: map<Sequence, MessageId>,
    v: View, m: PublicMessage)
    requires Indexed(v) && m.sequence in v.visible && ListsAgree(list, shown, accepted, buffer, v)
    ensures ListsAgree(list, shown, accepted, buffer - {m.sequence}, Show(v, m))
  {
    assert v.visible + {m.sequence} == v.visible && v.accepted - {m.sequence} == v.accepted;
    assert Indexes(buffer - {m.sequence}, Show(v, m).buffered, v.records);
  }

  /** Showing can be split into registering a message and then showing its record. */
  lemma ShowRegistered(v: View, m: PublicMessage)
    requires Indexed(v) && Check(v, m) == Ok
    ensures var w := Register(v, m);
            && m.sequence in w.records && w.records[m.sequence].sequence == m.sequence
            && Show(w, w.records[m.sequence]) == Show(v, m)
            && Indexed(Show(v, m))
  {
    RegisterKeepsIndexed(v, m);
    ShowKeepsIndexed(v, m);
  }

  lemma DiscardTheseAdds(v: View, gone: set<Sequence>, s: Sequence)
    requires Indexed(v) && s in v.buffered && s !in gone
    ensures DiscardThese(DiscardThese(v, gone), {s}) == DiscardThese(v, gone + {s})
  {
  }

  /** Where an accepted record goes once its acceptance is noted. */
  function Place(v: View, record: PublicMessage): View
    requires Indexed(v) && Check(v, record) == Ok
  {
    if v.cursor.Some? && record.sequence <= v.cursor.value then Show(v, record) else Deliver(v, record)
  }

  /** Accepting is registering, noting the acceptance of the record, and placing the record. */
  lemma AcceptInSteps(v: View, m: PublicMessage)
    requires Spec.Valid(v) && Check(v, m) == Ok
    ensures var w := Register(v, m);
            && m.sequence in w.records && w.records[m.sequence].sequence == m.sequence
            && var record, noted := w.records[m.sequence], NoteAccepted(w, w.records[m.sequence]);
            && Indexed(noted) && Check(noted, record) == Ok
            && Spec.ApplyAccepted(v, m) == Step(Place(noted, record), Ok)
            && Spec.Valid(Place(noted, record))
  {
    RegisterKeepsIndexed(v, m);
    NoteAcceptedKeepsIndexed(v, m);
    AcceptProgress(v, m);
    var w := Register(v, m);
    assert NoteAccepted(w, w.records[m.sequence]) == NoteAccepted(v, m);
  }

  function LookUpAll(list: seq<MessageId>, byId: map<MessageId, PublicMessage>): seq<PublicMessage>
    requires forall i :: 0 <= i < |list| ==> list[i] in byId
  {
    seq(|list|, i requires 0 <= i < |list| => byId[list[i]])
  }

  lemma LookUpAllShows(list: seq<MessageId>, byId: map<MessageId, PublicMessage>, ids: map<Sequence, MessageId>,
                       v: View)
    requires Indexed(v) && RecordsAgree(byId, ids, v.records, v.sequenceOf) && Enumerates(list, v)
    ensures forall i :: 0 <= i < |list| ==> list[i] in byId && byId[list[i]].messageId == list[i]
    ensures forall i :: 0 <= i < |list| ==> byId[list[i]].sequence == v.sequenceOf[list[i]]
    ensures var shown := LookUpAll(list, byId);
            forall s :: s in v.visible ==> s in v.records && v.records[s] in shown
  {
    var shown := LookUpAll(list, byId);
    forall s | s in v.visible ensures s in v.records && v.records[s] in shown {
      var i :| 0 <= i < |list| && list[i] == v.records[s].messageId;
      assert shown[i] == v.records[s];
    }
  }

  class StreamMessagesTimelineModel {
    const target: ClientTarget
    const streamId: string

    var records: map<MessageId, PublicMessage>
    var visibleIds: seq<MessageId>
    var visibleIdSet: set<MessageId>
    var acceptedOutsideVisible: set<MessageId>
    var messageIdToSequence: map<MessageId, Sequence>
    var sequenceToMessageId: map<Sequence, MessageId>
    var bufferedBySequence: map<Sequence, MessageId>
    var deliverySyncCursor: Option<Sequence>
    var hasMoreBefore: bool
    var historyBeforeCursor: Option<Sequence>

    /** What the fields above stand for. */
    ghost var view: View

    /** The fields agree with the view; holds between any two private steps. */
    ghost predicate Agrees()
      reads this
    {
      && Indexed(view)
      && (target, streamId, messageIdToSequence) == (view.target, view.streamId, view.sequenceOf)
      && RecordsAgree(records, sequenceToMessageId, view.records, view.sequenceOf)
      && ListsAgree(visibleIds, visibleIdSet, acceptedOutsideVisible, bufferedBySequence, view)
      && (deliverySyncCursor, historyBeforeCursor, hasMoreBefore)
          == (view.cursor, view.historyBefore, view.hasMoreBefore)
    }

    /** Holds between any two public operations. */
    ghost predicate Valid()
      reads this
    {
      Agrees() && Spec.Valid(view)
    }

    constructor (target: ClientTarget)
      ensures Valid() && view == Fresh(target)
    {
      this.target := target;
      this.streamId := CanonicalStreamId(target);
      records, visibleIds, visibleIdSet, acceptedOutsideVisible := map[], [], {}, {};
      messageIdToSequence, sequenceToMessageId, bufferedBySequence := map[], map[], map[];
      deliverySyncCursor, hasMoreBefore, historyBeforeCursor := None, false, None;
      view := Fresh(target);
    }

    /** Only called while the timeline is still empty. */
    method RestoreCursor(cursor: Sequence)
      requires Valid() && view == Fresh(target) && 0 <= cursor
      modifies this
      ensures Valid() && view == Fresh(target).(cursor := Some(cursor))
    {
      deliverySyncCursor := Some(cursor);
      view := view.(cursor := Some(cursor));
    }

    function AssertStream(id: string): (o: Outcome)
      reads this
      ensures o == Ok <==> id == streamId
    {
      if id != streamId then Thrown(MessageTargetMismatch) else Ok
    }

    function AssertIdentity(m: PublicMessage): (o: Outcome)
      requires Agrees()
      reads this
      ensures o == if Conflicts(view, m) then Thrown(MessageIdentityConflict) else Ok
    {
      if (m.sequence in sequenceToMessageId && sequenceToMessageId[m.sequence] != m.messageId)
         || (m.messageId in messageIdToSequence && messageIdToSequence[m.messageId] != m.sequence)
      then Thrown(MessageIdentityConflict) else Ok
    }

    /** The two assertions that every incoming message goes through first. */
    function AssertMessage(m: PublicMessage): (o: Outcome)
      requires Agrees()
      reads this
      ensures o == Check(view, m)
    {
      if m.streamId != streamId || m.target != target then Thrown(MessageTargetMismatch)
      else AssertIdentity(m)
    }

    method RegisterRecord(m: PublicMessage) returns (record: PublicMessage)
      requires Agrees() && Check(view, m) == Ok
      modifies this
      ensures Agrees() && view == Register(old(view), m)
      ensures m.sequence in view.records && record == view.records[m.sequence] && record.messageId == m.messageId
    {
      RegisterKeepsIndexed(view, m);
      if m.messageId in records {
        return records[m.messageId];
      }
      RegisterRecordsAgree(records, sequenceToMessageId, view, m);
      RegisterListsAgree(visibleIds, visibleIdSet, acceptedOutsideVisible, bufferedBySequence, view, m);
      record := m;
      records := records[m.messageId := record];
      messageIdToSequence := messageIdToSequence[m.messageId := m.sequence];
      sequenceToMessageId := sequenceToMessageId[m.sequence := m.messageId];
      view := Register(view, m);
    }

    /** Walks back from the end of the list to the place of a record. */
    method InsertionIndex(record: PublicMessage) returns (index: nat)
      requires Agrees() && record.sequence in view.records && record.sequence !in view.visible
      ensures index <= |visibleIds|
      ensures forall i :: 0 <= i < index ==> view.sequenceOf[visibleIds[i]] < record.sequence
      ensures forall i :: index <= i < |visibleIds| ==> record.sequence < view.sequenceOf[visibleIds[i]]
    {
      index := |visibleIds|;
      while index > 0 && records[visibleIds[index - 1]].sequence > record.sequence
        invariant index <= |visibleIds|
        invariant forall i :: index <= i < |visibleIds| ==> record.sequence < view.sequenceOf[visibleIds[i]]
      {
        index := index - 1;
      }
    }

    /** Splices a registered record into the displayed list. */
    method SpliceIn(record: PublicMessage)
      requires Agrees() && record.sequence in view.records && view.records[record.sequence] == record
      requires Indexed(Show(view, record)) && record.messageId !in visibleIdSet
      modifies this
      ensures Agrees() && view == Show(old(view), record)
    {
      var index := InsertionIndex(record);
      SpliceListsAgree(visibleIds, visibleIdSet, acceptedOutsideVisible, bufferedBySequence, view, record, index);
      visibleIds := Splice(visibleIds, index, record.messageId);
      visibleIdSet := visibleIdSet + {record.messageId};
      acceptedOutsideVisible := acceptedOutsideVisible - {record.messageId};
      bufferedBySequence := bufferedBySequence - {record.sequence};
      view := Show(view, record);
    }

    /** A record that is on display already is only taken out of the buffer. */
    method ShowRecord(record: PublicMessage)
      requires Agrees() && record.sequence in view.records && view.records[record.sequence] == record
      requires Indexed(Show(view, record))
      modifies this
      ensures Agrees() && view == Show(old(view), record)
    {
      if record.messageId !in visibleIdSet {
        SpliceIn(record);
        return;
      }
      ShownListsAgree(visibleIds, visibleIdSet, acceptedOutsideVisible, bufferedBySequence, view, record);
      bufferedBySequence := bufferedBySequence - {record.sequence};
      view := Show(view, record);
    }

    /** Registers a message and puts it on display. */
    method InsertLoadedMessage(m: PublicMessage) returns (o: Outcome)
      requires Agrees()
      modifies this
      ensures Agrees() && o == Check(old(view), m)
      ensures view == if o == Ok then Show(old(view), m) else old(view)
    {
      o := AssertMessage(m);
      if o != Ok {
        return;
      }
      ShowRegistered(view, m);
      var record := RegisterRecord(m);
      ShowRecord(record);
    }

    method BufferMessage(m: PublicMessage) returns (o: Outcome)
      requires Agrees() && HasIdentity(m, view.target, view.streamId)
      modifies this
      ensures Agrees() && o == if Conflicts(old(view), m) then Thrown(MessageIdentityConflict) else Ok
      ensures view == if o == Ok then Buffer(old(view), m) else old(view)
    {
      o := AssertIdentity(m);
      if o != Ok || m.messageId in visibleIdSet {
        return;
      }
      var record := RegisterRecord(m);
      bufferedBySequence := bufferedBySequence[m.sequence := m.messageId];
      view := view.(buffered := view.buffered + {m.sequence});
    }

    /** Shows the buffered message right after the cursor and moves the cursor onto it. */
    method DrainOne(nextSequence: Sequence)
      requires Agrees() && nextSequence in bufferedBySequence && deliverySyncCursor == Some(nextSequence - 1)
      modifies this
      ensures Agrees() && deliverySyncCursor.Some?
      ensures Drain(view) == Drain(old(view)) && |view.buffered| < |old(view).buffered|
    {
      var record := records[bufferedBySequence[nextSequence]];
      assert record == view.records[nextSequence] && Check(view, record) == Ok;
      ShowKeepsIndexed(view, record);
      assert view.buffered == view.buffered - {nextSequence} + {nextSequence};
      var o := InsertLoadedMessage(record);
      SetCursor(nextSequence);
      assert view == Advance(old(view), record);
    }

    /** Shows buffered messages for as long as the next one is there. */
    method DrainContiguousBuffer()
      requires Agrees()
      modifies this
      ensures Agrees() && view == Drain(old(view))
    {
      if deliverySyncCursor.None? {
        return;
      }
      while true
        invariant Agrees() && deliverySyncCursor.Some? && Drain(view) == Drain(old(view))
        decreases |view.buffered|
      {
        var nextSequence := deliverySyncCursor.value + 1;
        if nextSequence !in bufferedBySequence {
          return;
        }
        DrainOne(nextSequence);
      }
    }

    method DiscardOne(sequence: Sequence)
      requires Agrees() && sequence in bufferedBySequence
      modifies this
      ensures Agrees() && view == DiscardThese(old(view), {sequence})
    {
      var record := records[bufferedBySequence[sequence]];
      assert record == view.records[sequence] && Check(view, record) == Ok;
      if record.messageId in acceptedOutsideVisible {
        assert {sequence} * view.accepted == {sequence};
        var o := InsertLoadedMessage(record);
      } else {
        assert {sequence} * view.accepted == {} && view.accepted - {sequence} == view.accepted;
        bufferedBySequence := bufferedBySequence - {sequence};
        view := DiscardThese(view, {sequence});
      }
    }

    /**
     * Empties the buffer up to the cursor. The entries are visited in some order, each once:
     * removing the current entry does not disturb the others.
     */
    method DiscardBufferedAtOrBeforeCursor()
      requires Agrees()
      modifies this
      ensures Agrees() && view == Discard(old(view))
    {
      if deliverySyncCursor.None? {
        return;
      }
      ghost var gone := AtOrBefore(view.buffered, view.cursor);
      assert forall s :: s in bufferedBySequence <==> s in view.buffered;
      assert bufferedBySequence.Keys == view.buffered;
      ghost var done: set<Sequence> := {};
      var pending := bufferedBySequence.Keys;
      while pending != {}
        invariant Agrees() && view == DiscardThese(old(view), done)
        invariant pending <= view.buffered && done <= gone <= done + pending
        decreases pending
      {
        var sequence := AnyOf(pending);
        pending := pending - {sequence};
        if sequence <= deliverySyncCursor.value {
          DiscardTheseAdds(old(view), done, sequence);
          done := done + {sequence};
          DiscardOne(sequence);
        }
      }
    }

    method ReplaceKnown(m: PublicMessage) returns (o: Outcome)
      requires Agrees()
      modifies this
      ensures Agrees() && Spec.ReplaceKnown(old(view), m) == Step(view, o)
    {
      o := AssertMessage(m);
      if o != Ok || m.messageId !in records || MessagesEqual(records[m.messageId], m) {
        return;
      }
      ReplaceKeepsIndexed(view, m);
      ReplaceRecordsAgree(records, sequenceToMessageId, view, m);
      ReplaceListsAgree(visibleIds, visibleIdSet, acceptedOutsideVisible, bufferedBySequence, view, m);
      records := records[m.messageId := m];
      view := view.(records := view.records[m.sequence := m]);
    }

    method InsertHistoryMessage(m: PublicMessage) returns (o: Outcome)
      requires Agrees()
      modifies this
      ensures Agrees() && InsertHistory(old(view), m) == Step(view, o)
    {
      o := AssertMessage(m);
      if o != Ok {
        return;
      }
      MergeKeepsIndexed(view, m);
      if m.messageId in records {
        var current := records[m.messageId];
        var hasNewerEdit :=
          current.body.Text? && current.body.editedAt.Some? && m.body.Text? &&
          (m.body.editedAt.None? || current.body.editedAt.value > m.body.editedAt.value);
        if current.body.Text? && !hasNewerEdit {
          o := ReplaceKnown(m);
        }
      }
      o := InsertLoadedMessage(if m.messageId in records then records[m.messageId] else m);
    }

    method InsertHistoryMessages(ms: seq<PublicMessage>) returns (o: Outcome)
      requires Agrees()
      modifies this
      ensures Agrees() && InsertAll(old(view), ms) == Step(view, o)
    {
      o := Ok;
      for i := 0 to |ms|
        invariant Agrees() && o == Ok
        invariant InsertAll(view, ms[i..]) == InsertAll(old(view), ms)
      {
        assert ms[i..][1..] == ms[i + 1..];
        o := InsertHistoryMessage(ms[i]);
        if o != Ok {
          return;
        }
      }
    }

    method SetHistory(beforeCursor: Option<Sequence>, hasMore: bool)
      requires Agrees()
      modifies this
      ensures Agrees() && view == old(view).(historyBefore := beforeCursor, hasMoreBefore := hasMore)
    {
      if historyBeforeCursor == beforeCursor && hasMoreBefore == hasMore {
        return;
      }
      historyBeforeCursor, hasMoreBefore := beforeCursor, hasMore;
      view := view.(historyBefore := beforeCursor, hasMoreBefore := hasMore);
    }

    method SetCursor(cursor: Sequence)
      requires Agrees()
      modifies this
      ensures Agrees() && view == old(view).(cursor := Some(cursor))
    {
      deliverySyncCursor := Some(cursor);
      view := view.(cursor := Some(cursor));
    }

    // --- Public operations ---

    method ApplyLatest(r: LatestResponse) returns (o: Outcome)
      requires Valid()
      modifies this
      ensures Valid() && Spec.ApplyLatest(old(view), r) == Step(view, o)
    {
      LatestProgress(view, r);
      o := AssertStream(r.streamId);
      if o != Ok {
        return;
      }
      o := InsertHistoryMessages(r.messages);
      if o != Ok {
        return;
      }
      SetCursor(r.throughSequence);
      SetHistory(r.nextBeforeSequence, r.hasMoreBefore);
      DiscardBufferedAtOrBeforeCursor();
      DrainContiguousBuffer();
    }

    method ApplyOlder(r: OlderResponse) returns (o: Outcome)
      requires Valid()
      modifies this
      ensures Valid() && Spec.ApplyOlder(old(view), r) == Step(view, o)
    {
      InsertAllProgress(view, r.messages);
      o := AssertStream(r.streamId);
      if o != Ok {
        return;
      }
      o := InsertHistoryMessages(r.messages);
      if o != Ok {
        return;
      }
      SetHistory(r.nextBeforeSequence, r.hasMoreBefore);
    }

    method ApplySync(r: SyncResponse) returns (o: Outcome)
      requires Valid()
      modifies this
      ensures Valid() && Spec.ApplySync(old(view), r) == Step(view, o)
    {
      SyncProgress(view, r);
      o := AssertStream(r.streamId);
      if o != Ok {
        return;
      }
      if deliverySyncCursor != Some(r.afterSequence) {
        return Thrown(SyncCursorMismatch);
      }
      if r.hasMoreAfter && r.nextAfterSequence <= r.afterSequence {
        return Thrown(SyncNoProgress);
      }
      o := InsertHistoryMessages(r.messages);
      if o != Ok {
        return;
      }
      SetCursor(r.nextAfterSequence);
      DiscardBufferedAtOrBeforeCursor();
      if !r.hasMoreAfter {
        DrainContiguousBuffer();
      }
    }

    /** The part of a live delivery that an acceptance shares, in the middle of its own work. */
    method DeliverLive(m: PublicMessage) returns (o: Outcome)
      requires Agrees()
      modifies this
      ensures Agrees() && Spec.ApplyLive(old(view), m) == Step(view, o)
    {
      o := AssertMessage(m);
      if o != Ok {
        return;
      }
      if deliverySyncCursor.None? {
        o := BufferMessage(m);
      } else if m.sequence <= deliverySyncCursor.value {
        return;
      } else if m.sequence == deliverySyncCursor.value + 1 {
        o := InsertLoadedMessage(m);
        SetCursor(m.sequence);
        DrainContiguousBuffer();
      } else {
        o := BufferMessage(m);
      }
    }

    method ApplyLive(m: PublicMessage) returns (o: Outcome)
      requires Valid()
      modifies this
      ensures Valid() && Spec.ApplyLive(old(view), m) == Step(view, o)
    {
      ApplyKeeps(view, Live(m));
      o := DeliverLive(m);
    }

    method NoteAccepted(record: PublicMessage)
      requires Agrees() && record.sequence in view.records && view.records[record.sequence] == record
      modifies this
      ensures Agrees() && view == Spec.NoteAccepted(old(view), record)
    {
      if record.messageId !in visibleIdSet {
        acceptedOutsideVisible := acceptedOutsideVisible + {record.messageId};
        view := view.(accepted := view.accepted + {record.sequence});
      }
    }

    /** Shows an accepted record if the cursor has passed it, and delivers it like a live message otherwise. */
    method PlaceAccepted(record: PublicMessage)
      requires Agrees() && Check(view, record) == Ok
      modifies this
      ensures Agrees() && view == Place(old(view), record)
    {
      if deliverySyncCursor.Some? && record.sequence <= deliverySyncCursor.value {
        var o := InsertLoadedMessage(record);
      } else {
        var o := DeliverLive(record);
      }
    }

    method ApplyAccepted(m: PublicMessage) returns (o: Outcome)
      requires Valid()
      modifies this
      ensures Valid() && Spec.ApplyAccepted(old(view), m) == Step(view, o)
    {
      o := AssertMessage(m);
      if o != Ok {
        return;
      }
      AcceptInSteps(view, m);
      var record := RegisterRecord(m);
      NoteAccepted(record);
      PlaceAccepted(record);
    }

    method ReplaceKnownMessage(m: PublicMessage) returns (o: Outcome)
      requires Valid()
      modifies this
      ensures Valid() && Spec.ReplaceKnown(old(view), m) == Step(view, o)
    {
      ReplaceKeeps(view, m);
      o := ReplaceKnown(m);
    }

    function HasBufferedGap(): (gap: bool)
      requires Agrees()
      reads this
      ensures gap <==> view.buffered != {}
    {
      assert forall s :: s in bufferedBySequence.Keys <==> s in view.buffered;
      assert bufferedBySequence.Keys == view.buffered;
      |bufferedBySequence| > 0
    }

    /** The displayed messages, in ascending sequence order, each once. */
    function Shown(): (shown: seq<PublicMessage>)
      requires Valid()
      reads this
      ensures |shown| == |visibleIds|
      ensures forall i, j :: 0 <= i < j < |shown| ==> shown[i].sequence < shown[j].sequence
      ensures forall i :: 0 <= i < |shown| ==> shown[i].messageId == visibleIds[i]
      ensures forall i :: 0 <= i < |shown| ==> shown[i].sequence in view.visible
      ensures forall s :: s in view.visible ==> s in view.records && view.records[s] in shown
    {
      LookUpAllShows(visibleIds, records, sequenceToMessageId, view);
      LookUpAll(visibleIds, records)
    }
  }
}
