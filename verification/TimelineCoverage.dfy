/** A timeline fed from one append-only log shows every message between its lower end and its cursor. */
module TimelineCoverage {
  import opened Messages
  import opened Contracts
  import opened TimelineSpec
  import opened TimelineRuns

  /** The ids of a stream in sequence order: sequence `s` is at position `s - 1`. */
  type Log = seq<MessageId>

  ghost predicate Distinct(log: Log) {
    forall i, j :: 0 <= i < j < |log| ==> log[i] != log[j]
  }

  ghost predicate LogHas(log: Log, s: Sequence, id: MessageId) {
    1 <= s <= |log| && log[s - 1] == id
  }

  ghost predicate Logged(log: Log, m: PublicMessage) {
    LogHas(log, m.sequence, m.messageId)
  }

  ghost predicate FromLog(records: map<Sequence, PublicMessage>, log: Log) {
    forall s :: s in records ==> Logged(log, records[s])
  }

  /** A message that the server of this timeline's stream could have sent. */
  ghost predicate Honest(v: View, log: Log, m: PublicMessage) {
    HasIdentity(m, v.target, v.streamId) && Logged(log, m)
  }

  ghost predicate AllHonest(v: View, log: Log, ms: seq<PublicMessage>) {
    forall i :: 0 <= i < |ms| ==> Honest(v, log, ms[i])
  }

  /** A message as the clients of a stream may come to see it: the right stream, id and place. */
  ghost predicate HonestTo(t: Target, log: Log, m: PublicMessage) {
    m.streamId == CanonicalStreamId(t) && m.target == t && Logged(log, m)
  }

  ghost predicate AllHonestTo(t: Target, log: Log, ms: seq<PublicMessage>) {
    forall i :: 0 <= i < |ms| ==> HonestTo(t, log, ms[i])
  }

  /** A timeline of the stream of `t`. */
  ghost predicate ViewOf(v: View, t: Target) {
    v.target == t && v.streamId == CanonicalStreamId(t)
  }

  /** The lower end of what the timeline promises to show. */
  function Low(v: View, restored: Option<Sequence>): Sequence {
    if restored.Some? then restored.value + 1
    else if v.historyBefore.Some? then v.historyBefore.value
    else 1
  }

  ghost predicate Covered(v: View, low: Sequence) {
    v.cursor.Some? ==> forall s :: low <= s <= v.cursor.value ==> s in v.visible
  }

  ghost predicate NothingBeyondCursor(v: View) {
    forall s :: s in v.visible ==> v.cursor.Some? && s <= v.cursor.value
  }

  ghost predicate CursorGrows(v: View, w: View) {
    v.cursor.Some? ==> w.cursor.Some? && v.cursor.value <= w.cursor.value
  }

  ghost predicate HistoryKnown(v: View, restored: Option<Sequence>) {
    && (v.cursor.Some? ==> 0 <= v.cursor.value)
    && (restored.Some? ==> v.cursor.Some? && 0 <= restored.value <= v.cursor.value)
    && (restored.Some? || v.cursor.None? ==> v.historyBefore.None? && !v.hasMoreBefore)
    && (v.historyBefore.None? ==> !v.hasMoreBefore)
    && (v.historyBefore.Some? ==>
          1 <= v.historyBefore.value <= v.cursor.value && v.hasMoreBefore == (v.historyBefore.value > 1))
  }

  /**
   * The timeline knows no messages but the log's, and shows everything from its lower end up
   * to its cursor, and nothing beyond. `restored` is the cursor it was restored from.
   */
  ghost predicate Follows(v: View, log: Log, restored: Option<Sequence>) {
    && FromLog(v.records, log)
    && HistoryKnown(v, restored)
    && NothingBeyondCursor(v)
    && Covered(v, Low(v, restored))
  }

  ghost predicate Tracks(v: View, log: Log, restored: Option<Sequence>) {
    Valid(v) && Distinct(log) && Follows(v, log, restored)
  }

  lemma FreshTracks(target: ClientTarget, log: Log, restored: Option<Sequence>)
    requires Distinct(log) && (restored.Some? ==> restored.value >= 0)
    ensures Tracks(Fresh(target).(cursor := restored), log, restored)
  {
  }

  /** The log only grows, so what is tracked stays tracked. */
  lemma TracksLongerLog(v: View, log: Log, longer: Log, restored: Option<Sequence>)
    requires Tracks(v, log, restored) && log <= longer && Distinct(longer)
    ensures Tracks(v, longer, restored)
  {
  }

  // --- Honest messages never conflict ---

  lemma HonestPasses(v: View, log: Log, m: PublicMessage)
    requires Indexed(v) && Distinct(log) && FromLog(v.records, log) && Honest(v, log, m)
    ensures Check(v, m) == Ok
  {
    if m.messageId in v.sequenceOf {
      var t := v.sequenceOf[m.messageId];
      assert t in v.records && v.records[t].messageId == m.messageId && v.records[t].sequence == t;
      assert Logged(log, v.records[t]);
    }
    if m.sequence in v.records {
      assert Logged(log, v.records[m.sequence]);
    }
  }

  function Sequences(ms: seq<PublicMessage>): set<Sequence> {
    set i | 0 <= i < |ms| :: ms[i].sequence
  }

  lemma SequencesSplit(ms: seq<PublicMessage>)
    requires ms != []
    ensures Sequences(ms) == {ms[0].sequence} + Sequences(ms[1..])
  {
    forall s | s in Sequences(ms) ensures s in {ms[0].sequence} + Sequences(ms[1..]) {
      var i :| 0 <= i < |ms| && ms[i].sequence == s;
      if i > 0 {
        assert ms[1..][i - 1].sequence == s;
      }
    }
    forall s | s in Sequences(ms[1..]) ensures s in Sequences(ms) {
      var i :| 0 <= i < |ms[1..]| && ms[1..][i].sequence == s;
      assert ms[i + 1].sequence == s;
    }
  }

  /** An honest page is inserted completely, and changes nothing but records and visible messages. */
  ghost predicate Inserted(v: View, w: View, shown: set<Sequence>) {
    && w.visible == v.visible + shown
    && (w.cursor, w.historyBefore, w.hasMoreBefore) == (v.cursor, v.historyBefore, v.hasMoreBefore)
    && (w.target, w.streamId) == (v.target, v.streamId)
  }

  lemma InsertHistoryHonest(v: View, log: Log, m: PublicMessage)
    requires Indexed(v) && Distinct(log) && FromLog(v.records, log) && Honest(v, log, m)
    ensures InsertHistory(v, m).outcome == Ok && Indexed(InsertHistory(v, m).view)
    ensures FromLog(InsertHistory(v, m).view.records, log)
    ensures Inserted(v, InsertHistory(v, m).view, {m.sequence})
  {
    HonestPasses(v, log, m);
    MergeKeepsIndexed(v, m);
    ShowKeepsIndexed(Merge(v, m), m);
  }

  lemma {:induction false} InsertAllHonest(v: View, log: Log, ms: seq<PublicMessage>)
    requires Indexed(v) && Distinct(log) && FromLog(v.records, log) && AllHonest(v, log, ms)
    ensures InsertAll(v, ms).outcome == Ok
    ensures FromLog(InsertAll(v, ms).view.records, log)
    ensures Inserted(v, InsertAll(v, ms).view, Sequences(ms))
    decreases |ms|
  {
    if ms != [] {
      var w := InsertHistory(v, ms[0]).view;
      InsertHistoryHonest(v, log, ms[0]);
      assert AllHonest(w, log, ms[1..]);
      InsertAllHonest(w, log, ms[1..]);
      SequencesSplit(ms);
    }
  }

  /** A contiguous page shows exactly the sequences from its first to its last. */
  lemma PageSequences(ms: seq<PublicMessage>, streamId: string)
    requires ValidPageMessages(ms, streamId)
    ensures forall s :: s in Sequences(ms) <==> |ms| > 0 && ms[0].sequence <= s < ms[0].sequence + |ms|
  {
    forall s | |ms| > 0 && ms[0].sequence <= s < ms[0].sequence + |ms| ensures s in Sequences(ms) {
      assert ms[s - ms[0].sequence].sequence == s;
    }
  }

  lemma {:induction false} InsertAllKeepsCursor(v: View, ms: seq<PublicMessage>)
    ensures InsertAll(v, ms).view.cursor == v.cursor
    decreases |ms|
  {
    if ms != [] {
      InsertAllKeepsCursor(InsertHistory(v, ms[0]).view, ms[1..]);
    }
  }

  // --- Moving on by one message, and draining ---

  ghost predicate SameHistory(v: View, w: View) {
    (w.historyBefore, w.hasMoreBefore) == (v.historyBefore, v.hasMoreBefore)
  }

  lemma AdvanceFollows(v: View, log: Log, restored: Option<Sequence>, m: PublicMessage)
    requires Follows(v, log, restored) && Logged(log, m)
    requires v.cursor.Some? && v.cursor.value + 1 == m.sequence
    ensures Follows(Advance(v, m), log, restored)
  {
  }

  lemma {:induction false} DrainMovesCursorOnly(v: View)
    requires Indexed(v)
    ensures CursorGrows(v, Drain(v)) && SameHistory(v, Drain(v))
    decreases |v.buffered|
  {
    if v.cursor.Some? && v.cursor.value + 1 in v.buffered {
      var next := v.cursor.value + 1;
      ShowKeepsIndexed(v, v.records[next]);
      assert v.buffered == v.buffered - {next} + {next};
      DrainMovesCursorOnly(Advance(v, v.records[next]));
    }
  }

  lemma {:induction false} DrainFollows(v: View, log: Log, restored: Option<Sequence>)
    requires Indexed(v) && Follows(v, log, restored)
    ensures Follows(Drain(v), log, restored)
    decreases |v.buffered|
  {
    if v.cursor.Some? && v.cursor.value + 1 in v.buffered {
      var next := v.cursor.value + 1;
      ShowKeepsIndexed(v, v.records[next]);
      AdvanceFollows(v, log, restored, v.records[next]);
      assert v.buffered == v.buffered - {next} + {next};
      DrainFollows(Advance(v, v.records[next]), log, restored);
    }
  }

  // --- Each honest input keeps the promise, without a protocol error ---

  lemma DeliverFollows(v: View, log: Log, restored: Option<Sequence>, m: PublicMessage)
    requires Indexed(v) && Follows(v, log, restored) && Logged(log, m) && Check(v, m) == Ok
    ensures Follows(Deliver(v, m), log, restored)
    ensures CursorGrows(v, Deliver(v, m)) && SameHistory(v, Deliver(v, m))
  {
    if v.cursor.Some? && v.cursor.value + 1 == m.sequence {
      ShowKeepsIndexed(v, m);
      AdvanceFollows(v, log, restored, m);
      DrainFollows(Advance(v, m), log, restored);
      DrainMovesCursorOnly(Advance(v, m));
    }
  }

  lemma LiveTracks(v: View, log: Log, restored: Option<Sequence>, m: PublicMessage)
    requires Tracks(v, log, restored) && Honest(v, log, m)
    ensures ApplyLive(v, m).outcome == Ok
    ensures Tracks(ApplyLive(v, m).view, log, restored)
    ensures CursorGrows(v, ApplyLive(v, m).view) && SameHistory(v, ApplyLive(v, m).view)
  {
    HonestPasses(v, log, m);
    DeliverProgress(v, m);
    DeliverFollows(v, log, restored, m);
  }

  lemma NoteAcceptedFollows(v: View, log: Log, restored: Option<Sequence>, m: PublicMessage)
    requires Follows(v, log, restored) && Logged(log, m)
    ensures Follows(NoteAccepted(v, m), log, restored)
  {
  }

  lemma ShowFollows(v: View, log: Log, restored: Option<Sequence>, m: PublicMessage)
    requires Follows(v, log, restored) && Logged(log, m) && v.cursor.Some? && m.sequence <= v.cursor.value
    ensures Follows(Show(v, m), log, restored)
  {
  }

  lemma AcceptedTracks(v: View, log: Log, restored: Option<Sequence>, m: PublicMessage)
    requires Tracks(v, log, restored) && Honest(v, log, m)
    ensures ApplyAccepted(v, m).outcome == Ok
    ensures Tracks(ApplyAccepted(v, m).view, log, restored)
    ensures CursorGrows(v, ApplyAccepted(v, m).view) && SameHistory(v, ApplyAccepted(v, m).view)
  {
    HonestPasses(v, log, m);
    AcceptProgress(v, m);
    NoteAcceptedKeepsIndexed(v, m);
    NoteAcceptedFollows(v, log, restored, m);
    var w := NoteAccepted(v, m);
    var record := w.records[m.sequence];
    assert Logged(log, record);
    if w.cursor.Some? && record.sequence <= w.cursor.value {
      ShowFollows(w, log, restored, record);
    } else {
      DeliverFollows(w, log, restored, record);
    }
  }

  lemma ReplaceTracks(v: View, log: Log, restored: Option<Sequence>, m: PublicMessage)
    requires Tracks(v, log, restored) && Honest(v, log, m)
    ensures ReplaceKnown(v, m).outcome == Ok
    ensures Tracks(ReplaceKnown(v, m).view, log, restored) && ReplaceKnown(v, m).view.cursor == v.cursor
  {
    HonestPasses(v, log, m);
    ReplaceKeeps(v, m);
  }

  lemma FirstJumpFollows(v: View, log: Log, r: LatestResponse)
    requires Indexed(v) && FromLog(v.records, log) && LatestContract(r)
    requires (v.historyBefore, v.hasMoreBefore) == (r.nextBeforeSequence, r.hasMoreBefore)
    requires forall s :: s in v.visible ==> s <= r.throughSequence
    requires forall s :: Low(v, None) <= s <= r.throughSequence ==> s in v.visible
    ensures Follows(Jump(v, r.throughSequence), log, None)
  {
  }

  lemma LatestTracks(v: View, log: Log, r: LatestResponse)
    requires Tracks(v, log, None) && v.cursor.None?
    requires LatestContract(r) && r.streamId == v.streamId && AllHonest(v, log, r.messages)
    ensures ApplyLatest(v, r).outcome == Ok
    ensures Tracks(ApplyLatest(v, r).view, log, None) && ApplyLatest(v, r).view.cursor.Some?
  {
    LatestProgress(v, r);
    InsertAllHonest(v, log, r.messages);
    InsertAllKeepsIndexed(v, r.messages);
    PageSequences(r.messages, r.streamId);
    var remembered := InsertAll(v, r.messages).view.(
    historyBefore := r.nextBeforeSequence, hasMoreBefore := r.hasMoreBefore);
    JumpKeepsIndexed(remembered, r.throughSequence);
    FirstJumpFollows(remembered, log, r);
    DrainFollows(Jump(remembered, r.throughSequence), log, None);
    DrainMovesCursorOnly(Jump(remembered, r.throughSequence));
  }

  /** An older page lowers the lower end, and shows everything down to it. */
  lemma OlderTracks(v: View, log: Log, restored: Option<Sequence>, r: OlderResponse)
    requires Tracks(v, log, restored) && v.hasMoreBefore && v.historyBefore == Some(r.beforeSequence)
    requires OlderContract(r) && r.streamId == v.streamId && AllHonest(v, log, r.messages)
    ensures ApplyOlder(v, r).outcome == Ok
    ensures var w := ApplyOlder(v, r).view;
            && Tracks(w, log, restored) && w.cursor == v.cursor
            && w.historyBefore.Some? && w.historyBefore.value < v.historyBefore.value
  {
    InsertAllHonest(v, log, r.messages);
    InsertAllProgress(v, r.messages);
    PageSequences(r.messages, r.streamId);
  }

  lemma JumpFollows(v: View, log: Log, restored: Option<Sequence>, r: SyncResponse)
    requires Indexed(v) && FromLog(v.records, log) && HistoryKnown(v, restored) && v.cursor == Some(r.afterSequence)
    requires SyncContract(r)
    requires forall s :: s in v.visible ==> s <= r.nextAfterSequence
    requires forall s :: Low(v, restored) <= s <= r.nextAfterSequence ==> s in v.visible
    ensures Follows(Jump(v, r.nextAfterSequence), log, restored)
  {
  }

  /** Inserting a sync page that fits the cursor and jumping to its end. */
  lemma SyncPageFollows(v: View, log: Log, restored: Option<Sequence>, r: SyncResponse)
    requires Tracks(v, log, restored) && v.cursor == Some(r.afterSequence)
    requires SyncContract(r) && AllHonest(v, log, r.messages)
    ensures var inserted := InsertAll(v, r.messages);
            && inserted.outcome == Ok && Indexed(Jump(inserted.view, r.nextAfterSequence))
            && Follows(Jump(inserted.view, r.nextAfterSequence), log, restored)
            && SameHistory(v, inserted.view)
  {
    InsertAllHonest(v, log, r.messages);
    InsertAllKeepsIndexed(v, r.messages);
    PageSequences(r.messages, r.streamId);
    var inserted := InsertAll(v, r.messages).view;
    JumpFollows(inserted, log, restored, r);
    JumpKeepsIndexed(inserted, r.nextAfterSequence);
  }

  /** A sync page that fits the cursor moves it to its end; any other leaves everything as it was. */
  lemma SyncTracks(v: View, log: Log, restored: Option<Sequence>, r: SyncResponse)
    requires Tracks(v, log, restored)
    requires SyncContract(r) && r.streamId == v.streamId && AllHonest(v, log, r.messages)
    ensures var s := ApplySync(v, r);
            if v.cursor == Some(r.afterSequence) then
              && s.outcome == Ok
              && Tracks(s.view, log, restored) && SameHistory(v, s.view)
              && s.view.cursor.Some? && r.nextAfterSequence <= s.view.cursor.value
              && (r.hasMoreAfter ==> s.view.cursor.value == r.nextAfterSequence)
            else
              s == Step(v, Thrown(SyncCursorMismatch))
  {
    if v.cursor == Some(r.afterSequence) {
      SyncPageFollows(v, log, restored, r);
      SyncProgress(v, r);
      DrainFollows(Jump(InsertAll(v, r.messages).view, r.nextAfterSequence), log, restored);
      DrainMovesCursorOnly(Jump(InsertAll(v, r.messages).view, r.nextAfterSequence));
    }
  }

  // --- What this means for the displayed list ---

  /** `ids` lists the visible messages, each once, in sequence order. */
  ghost predicate Lists(
    ids: seq<MessageId>, records: map<Sequence, PublicMessage>,
    sequenceOf: map<MessageId, Sequence>, visible: set<Sequence>)
  {
    && (forall i :: 0 <= i < |ids| ==> ids[i] in sequenceOf && sequenceOf[ids[i]] in visible)
    && (forall i, j :: 0 <= i < j < |ids| ==> sequenceOf[ids[i]] < sequenceOf[ids[j]])
    && (forall s :: s in visible ==> s in records && records[s].messageId in ids)
  }

  ghost predicate Enumerates(ids: seq<MessageId>, v: View) {
    Lists(ids, v.records, v.sequenceOf, v.visible)
  }

  /** Counting back from the end, the list holds the places up to the cursor without a gap. */
  ghost predicate EndsAt(ids: seq<MessageId>, v: View, c: Sequence, n: nat) {
    n <= |ids| && forall i :: |ids| - n <= i < |ids| ==>
        ids[i] in v.sequenceOf && v.sequenceOf[ids[i]] == c + 1 - |ids| + i
  }

  lemma {:induction false} ListEndsAtCursor(ids: seq<MessageId>, v: View, low: Sequence, n: nat)
    requires Valid(v) && Enumerates(ids, v)
    requires v.cursor.Some? && Covered(v, low) && NothingBeyondCursor(v) && low <= v.cursor.value - n + 1
    ensures EndsAt(ids, v, v.cursor.value, n)
  {
    if n > 0 {
      ListEndsAtCursor(ids, v, low, n - 1);
      var s := v.cursor.value - n + 1;
      assert s in v.visible;
      var i :| 0 <= i < |ids| && ids[i] == v.records[s].messageId;
      assert v.sequenceOf[ids[i]] == s;
      assert i < |ids| - (n - 1);
      var next := |ids| - n;
      var t := v.sequenceOf[ids[next]];
      assert s <= t <= v.cursor.value;
      assert n > 1 ==> t < v.sequenceOf[ids[next + 1]];
      assert i == next;
    }
  }

  /** The displayed list ends with exactly the log from the lower end to the cursor. */
  lemma DisplayedListEndsWithLog(ids: seq<MessageId>, v: View, log: Log, restored: Option<Sequence>)
    requires Tracks(v, log, restored) && Enumerates(ids, v) && v.cursor.Some?
    ensures var n := v.cursor.value + 1 - Low(v, restored);
            && 0 <= n && EndsAt(ids, v, v.cursor.value, n)
            && (forall i :: |ids| - n <= i < |ids| ==> LogHas(log, v.cursor.value + 1 - |ids| + i, ids[i]))
  {
    var c := v.cursor.value;
    var n := c + 1 - Low(v, restored);
    ListEndsAtCursor(ids, v, Low(v, restored), n);
    forall i | |ids| - n <= i < |ids|
      ensures LogHas(log, c + 1 - |ids| + i, ids[i])
    {
      assert Logged(log, v.records[v.sequenceOf[ids[i]]]);
    }
  }

  /** No message comes before the first of the log, so the list cannot be ahead of it. */
  lemma {:induction false} PlacesGrow(ids: seq<MessageId>, v: View, log: Log, i: nat)
    requires Valid(v) && FromLog(v.records, log) && Enumerates(ids, v) && i < |ids|
    ensures i + 1 <= v.sequenceOf[ids[i]]
  {
    if i == 0 {
      var s := v.sequenceOf[ids[0]];
      assert s in v.visible && s in v.records && v.records[s].sequence == s;
      assert Logged(log, v.records[s]);
    } else {
      PlacesGrow(ids, v, log, i - 1);
    }
  }

  /** Once no older history is left, the displayed list is the log up to the cursor. */
  lemma DisplayedListIsTheLog(ids: seq<MessageId>, v: View, log: Log)
    requires Tracks(v, log, None) && Enumerates(ids, v) && v.cursor.Some? && !v.hasMoreBefore
    ensures |ids| == v.cursor.value <= |log| && ids == log[..v.cursor.value]
  {
    DisplayedListEndsWithLog(ids, v, log, None);
    var c := v.cursor.value;
    assert Low(v, None) == 1;
    if ids != [] {
      PlacesGrow(ids, v, log, |ids| - 1);
    }
    assert c > 0 ==> LogHas(log, c, ids[|ids| - 1]);
    assert forall i :: 0 <= i < |ids| ==> LogHas(log, i + 1, ids[i]);
  }
}
