/** What each input does to a timeline, told from the fields before it, and what comes before the first page. */
module TimelineArrivals {
  import opened Messages
  import opened Contracts
  import opened TimelineSpec
  import opened TimelineRuns
  import opened TimelineCoverage
  import opened GapBuffer

  // --- What is refused ---

  /** The message is of this stream, and contradicts nothing that is known: no other id at its place, no other place. */
  ghost predicate Fits(v: View, m: PublicMessage) {
    && m.streamId == v.streamId && m.target == v.target
    && forall s :: s in v.records ==> (v.records[s].messageId == m.messageId <==> s == m.sequence)
  }

  lemma RefusedExactly(v: View, m: PublicMessage)
    requires Indexed(v)
    ensures Check(v, m) == Ok <==> Fits(v, m)
    ensures Check(v, m) == Thrown(MessageTargetMismatch) <==> m.streamId != v.streamId || m.target != v.target
  {
    if Check(v, m) == Ok {
      forall s | s in v.records ensures v.records[s].messageId == m.messageId <==> s == m.sequence {
      }
    }
    if Fits(v, m) && m.messageId in v.sequenceOf {
      assert v.records[v.sequenceOf[m.messageId]].messageId == m.messageId;
    }
  }

  // --- Records: what is known of a message ---

  /** Nothing is known of a new message but what it says itself; what is known already stays. */
  ghost predicate Learns(v: View, w: View, m: PublicMessage) {
    w.records == if m.sequence in v.records then v.records else v.records[m.sequence := m]
  }

  lemma {:induction false} DrainLearnsNothing(v: View)
    requires Indexed(v)
    ensures Drain(v).records == v.records
    decreases |v.buffered|
  {
    if v.cursor.Some? && v.cursor.value + 1 in v.buffered {
      var next := v.cursor.value + 1;
      ShowKeepsIndexed(v, v.records[next]);
      assert v.buffered == v.buffered - {next} + {next};
      DrainLearnsNothing(Advance(v, v.records[next]));
    }
  }

  /** Unless the cursor has passed it, a live message becomes known as it came. */
  lemma LiveIsLearnt(v: View, m: PublicMessage)
    requires Valid(v) && Fits(v, m)
    ensures var w := ApplyLive(v, m).view;
            if v.cursor.Some? && m.sequence <= v.cursor.value then w == v else Learns(v, w, m)
  {
    RefusedExactly(v, m);
    if v.cursor.Some? && m.sequence == v.cursor.value + 1 {
      ShowKeepsIndexed(v, m);
      DrainLearnsNothing(Advance(v, m));
    }
  }

  /** An accepted message becomes known as it came, also behind the cursor, where it is shown at once. */
  lemma AcceptedIsLearnt(v: View, m: PublicMessage)
    requires Valid(v) && Fits(v, m)
    ensures var w := ApplyAccepted(v, m).view;
            && Learns(v, w, m)
            && (v.cursor.Some? && m.sequence <= v.cursor.value ==> m.sequence in w.visible && w.cursor == v.cursor)
  {
    RefusedExactly(v, m);
    NoteAcceptedKeepsIndexed(v, m);
    var noted := NoteAccepted(v, m);
    var record := noted.records[m.sequence];
    if v.cursor.Some? && m.sequence == v.cursor.value + 1 {
      ShowKeepsIndexed(noted, record);
      DrainLearnsNothing(Advance(noted, record));
    }
  }

  /** The messages that an input brings. */
  function MessagesOf(input: Input): seq<PublicMessage> {
    match input
    case Latest(r) => r.messages
    case Older(r) => r.messages
    case Sync(r) => r.messages
    case Live(m) => [m]
    case Accepted(m) => [m]
    case Replace(m) => [m]
  }

  /** Every record was known before, or has just come in. */
  ghost predicate LearnsFrom(v: View, w: View, ms: seq<PublicMessage>) {
    forall s :: s in w.records ==> (s in v.records && w.records[s] == v.records[s]) || w.records[s] in ms
  }

  lemma {:induction false} PageIsLearnt(v: View, ms: seq<PublicMessage>)
    ensures LearnsFrom(v, InsertAll(v, ms).view, ms)
    decreases |ms|
  {
    if ms != [] && Check(v, ms[0]) == Ok {
      var w := InsertHistory(v, ms[0]).view;
      assert ms[0] in ms && LearnsFrom(v, w, [ms[0]]);
      PageIsLearnt(w, ms[1..]);
    }
  }

  /** Whatever comes in, nothing is known that was not said. */
  lemma InputIsLearnt(v: View, input: Input)
    requires Valid(v)
    ensures LearnsFrom(v, Apply(v, input).view, MessagesOf(input))
  {
    match input {
      case Latest(r) =>
        PageIsLearnt(v, r.messages);
        InsertAllKeepsIndexed(v, r.messages);
        var inserted := InsertAll(v, r.messages).view;
        var w := inserted.(historyBefore := r.nextBeforeSequence, hasMoreBefore := r.hasMoreBefore);
        JumpKeepsIndexed(w, r.throughSequence);
        DrainLearnsNothing(Jump(w, r.throughSequence));
      case Older(r) => PageIsLearnt(v, r.messages);
      case Sync(r) =>
        PageIsLearnt(v, r.messages);
        InsertAllKeepsIndexed(v, r.messages);
        var w := InsertAll(v, r.messages).view;
        JumpKeepsIndexed(w, r.nextAfterSequence);
        DrainLearnsNothing(Jump(w, r.nextAfterSequence));
      case Live(m) => if Check(v, m) == Ok { RefusedExactly(v, m); LiveIsLearnt(v, m); }
      case Accepted(m) => if Check(v, m) == Ok { RefusedExactly(v, m); AcceptedIsLearnt(v, m); }
      case Replace(m) =>
    }
  }

  /** A page brings in what it says of a message, also of one known already, unless that has got further in its life. */
  lemma HistoryIsLearnt(v: View, m: PublicMessage)
    requires Valid(v) && Fits(v, m)
    ensures var w := InsertHistory(v, m).view;
            if m.sequence in v.records
               && (v.records[m.sequence].body.Tombstone? || !RankOf(v.records[m.sequence]).AtMost(RankOf(m)))
            then w.records == v.records else w.records == v.records[m.sequence := m]
  {
    RefusedExactly(v, m);
  }

  /** Replacing puts the record in place of the known one, and does nothing else; an unknown message is ignored. */
  lemma ReplacedExactly(v: View, m: PublicMessage)
    requires Valid(v)
    ensures var s := ReplaceKnown(v, m);
            if !Fits(v, m) then s.view == v && s.outcome.Thrown?
            else
              && s.outcome == Ok
              && s.view == if m.sequence in v.records then v.(records := v.records[m.sequence := m]) else v
  {
    RefusedExactly(v, m);
  }

  // --- Pages that are refused ---

  /** A page of another stream, or one that does not follow on the cursor or leads nowhere, changes nothing. */
  lemma SyncIsRefused(v: View, r: SyncResponse)
    requires Valid(v)
    ensures var s := ApplySync(v, r);
            if r.streamId != v.streamId then s == Step(v, Thrown(MessageTargetMismatch))
            else if v.cursor != Some(r.afterSequence) then s == Step(v, Thrown(SyncCursorMismatch))
            else if r.hasMoreAfter && r.nextAfterSequence <= r.afterSequence then s == Step(v, Thrown(SyncNoProgress))
            else s.outcome == InsertAll(v, r.messages).outcome
  {
  }

  lemma HistoryIsRefused(v: View, latest: LatestResponse, older: OlderResponse)
    requires Valid(v)
    ensures if latest.streamId != v.streamId then ApplyLatest(v, latest) == Step(v, Thrown(MessageTargetMismatch))
            else ApplyLatest(v, latest).outcome == InsertAll(v, latest.messages).outcome
    ensures if older.streamId != v.streamId then ApplyOlder(v, older) == Step(v, Thrown(MessageTargetMismatch))
            else ApplyOlder(v, older).outcome == InsertAll(v, older.messages).outcome
  {
  }

  /** A page is inserted up to the first message that does not fit what is known by then, and no further. */
  lemma {:induction false} InsertedUpToConflict(v: View, ms: seq<PublicMessage>) returns (k: nat)
    requires Valid(v)
    ensures k <= |ms| && InsertAll(v, ms[..k]).outcome == Ok && InsertAll(v, ms).view == InsertAll(v, ms[..k]).view
    ensures Valid(InsertAll(v, ms[..k]).view)
    ensures if InsertAll(v, ms).outcome == Ok then k == |ms| else k < |ms| && !Fits(InsertAll(v, ms[..k]).view, ms[k])
    decreases |ms|
  {
    if ms == [] {
      k := 0;
    } else if Check(v, ms[0]) != Ok {
      RefusedExactly(v, ms[0]);
      assert ms[..0] == [];
      k := 0;
    } else {
      var first := InsertHistory(v, ms[0]).view;
      MergeProgress(v, ms[0]);
      ShowProgress(Merge(v, ms[0]), ms[0]);
      k := InsertedUpToConflict(first, ms[1..]);
      assert ms[..k + 1][0] == ms[0] && ms[..k + 1][1..] == ms[1..][..k];
      k := k + 1;
    }
  }

  // --- Before the first page ---

  /** Without a cursor a live message waits, and nothing else changes. */
  lemma LiveWaits(v: View, m: PublicMessage)
    requires Valid(v) && v.cursor.None? && Fits(v, m)
    ensures var s := ApplyLive(v, m);
            && s.outcome == Ok && s.view.cursor == None && s.view.visible == v.visible && s.view.accepted == v.accepted
            && s.view.buffered == (if m.sequence in v.visible then v.buffered else v.buffered + {m.sequence})
            && (m.sequence !in v.visible ==> Learns(v, s.view, m))
            && (s.view.historyBefore, s.view.hasMoreBefore) == (v.historyBefore, v.hasMoreBefore)
  {
    RefusedExactly(v, m);
  }

  /** So does an accepted one, and it is known to be accepted. */
  lemma AcceptedWaits(v: View, m: PublicMessage)
    requires Valid(v) && v.cursor.None? && Fits(v, m)
    ensures var s := ApplyAccepted(v, m);
            && s.outcome == Ok && s.view.cursor == None && s.view.visible == v.visible && Learns(v, s.view, m)
            && (if m.sequence in v.visible then s.view.buffered == v.buffered && s.view.accepted == v.accepted
                else s.view.buffered == v.buffered + {m.sequence} && s.view.accepted == v.accepted + {m.sequence})
            && (s.view.historyBefore, s.view.hasMoreBefore) == (v.historyBefore, v.hasMoreBefore)
  {
    RefusedExactly(v, m);
  }

  /** A timeline that waits for its first page: nothing is on display. */
  ghost predicate AwaitsFirstPage(v: View) {
    Valid(v) && v.cursor.None? && v.visible == {} && v.historyBefore.None? && !v.hasMoreBefore
  }

  ghost predicate AllHonestMessages(v: View, log: Log, inputs: seq<Input>) {
    forall i :: 0 <= i < |inputs| ==>
      match inputs[i]
      case Live(m) => Honest(v, log, m)
      case Accepted(m) => Honest(v, log, m)
      case Replace(m) => Honest(v, log, m)
      case _ => false
  }

  /** Whatever arrives before the first page waits for it. */
  lemma {:induction false} ArrivalsWait(v: View, log: Log, inputs: seq<Input>)
    requires AwaitsFirstPage(v) && Distinct(log) && FromLog(v.records, log) && AllHonestMessages(v, log, inputs)
    ensures var w := Run(v, inputs);
            && AwaitsFirstPage(w) && FromLog(w.records, log) && (w.target, w.streamId) == (v.target, v.streamId)
            && w.buffered == v.buffered + Arrived(inputs)
    decreases |inputs|
  {
    if inputs != [] {
      ArrivalWaits(v, log, inputs[0]);
      var next := Apply(v, inputs[0]).view;
      assert AllHonestMessages(next, log, inputs[1..]);
      ArrivalsWait(next, log, inputs[1..]);
    }
  }

  lemma ArrivalWaits(v: View, log: Log, input: Input)
    requires AwaitsFirstPage(v) && Distinct(log) && FromLog(v.records, log) && AllHonestMessages(v, log, [input])
    ensures var s := Apply(v, input);
            && s.outcome == Ok && AwaitsFirstPage(s.view) && FromLog(s.view.records, log)
            && (s.view.target, s.view.streamId) == (v.target, v.streamId)
            && s.view.buffered == v.buffered + ArrivedIn(input)
  {
    assert [input][0] == input;
    ApplyKeeps(v, input);
    match input {
      case Live(m) =>
        HonestPasses(v, log, m);
        RefusedExactly(v, m);
        LiveWaits(v, m);
      case Accepted(m) =>
        HonestPasses(v, log, m);
        RefusedExactly(v, m);
        AcceptedWaits(v, m);
      case Replace(m) => HonestPasses(v, log, m);
    }
  }

  /**
   * The latest page moves the cursor to its end and from there through what waits; exactly what lies
   * beyond waits on.
   */
  lemma LatestMovesTo(v: View, log: Log, r: LatestResponse)
    requires AwaitsFirstPage(v) && Distinct(log) && FromLog(v.records, log)
    requires LatestContract(r) && r.streamId == v.streamId && AllHonest(v, log, r.messages)
    ensures var s := ApplyLatest(v, r);
            && s.outcome == Ok && s.view.cursor.Some?
            && exists waiting :: Above(v.buffered, waiting, r.throughSequence)
                                 && DrainedTo(waiting, r.throughSequence, s.view.buffered, s.view.cursor.value)
  {
    InsertAllHonest(v, log, r.messages);
    var inserted := InsertAll(v, r.messages).view;
    var remembered := inserted.(historyBefore := r.nextBeforeSequence, hasMoreBefore := r.hasMoreBefore);
    assert forall i :: 0 <= i < |r.messages| ==> r.messages[i].sequence <= r.throughSequence;
    InsertAllProgress(v, r.messages);
    InsertAllKeepsWaiting(v, r.messages, r.throughSequence);
    InsertAllKeepsCursor(v, r.messages);
    JumpProgress(remembered, r.throughSequence);
    DrainStopsAtGap(Jump(remembered, r.throughSequence));
    assert Above(v.buffered, Jump(remembered, r.throughSequence).buffered, r.throughSequence);
  }

  /**
   * Whatever arrives before the latest page and the page after it: the cursor ends where the unbroken
   * run of arrivals after the page ends, everything beyond waits, and nothing that arrived is lost.
   */
  lemma FirstPageShowsArrivals(v: View, log: Log, inputs: seq<Input>, r: LatestResponse)
    requires AwaitsFirstPage(v) && v.buffered == {} && Distinct(log) && FromLog(v.records, log)
    requires AllHonestMessages(v, log, inputs)
    requires LatestContract(r) && r.streamId == v.streamId && AllHonest(v, log, r.messages)
    ensures Valid(Run(v, inputs))
    ensures var s := ApplyLatest(Run(v, inputs), r);
            && s.outcome == Ok && s.view.cursor.Some?
            && exists waiting :: Above(Arrived(inputs), waiting, r.throughSequence)
                                 && DrainedTo(waiting, r.throughSequence, s.view.buffered, s.view.cursor.value)
  {
    ArrivalsWait(v, log, inputs);
    assert {} + Arrived(inputs) == Arrived(inputs);
    LatestMovesTo(Run(v, inputs), log, r);
  }
}
