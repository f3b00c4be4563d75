/** What every run of timeline operations keeps, whatever their order and whether or not they throw. */
module TimelineRuns {
  import opened Messages
  import opened Contracts
  import opened TimelineSpec

  datatype Input =
    | Latest(latest: LatestResponse)
    | Older(older: OlderResponse)
    | Sync(sync: SyncResponse)
    | Live(live: PublicMessage)
    | Accepted(accepted: PublicMessage)
    | Replace(known: PublicMessage)

  function Apply(v: View, input: Input): Step
    requires Indexed(v)
  {
    match input
    case Latest(r) => ApplyLatest(v, r)
    case Older(r) => ApplyOlder(v, r)
    case Sync(r) => ApplySync(v, r)
    case Live(m) => ApplyLive(v, m)
    case Accepted(m) => ApplyAccepted(v, m)
    case Replace(m) => ReplaceKnown(v, m)
  }

  /** Nothing on display or accepted is lost, and no message changes its id or its place. */
  ghost predicate Keeps(v: View, w: View) {
    && w.target == v.target && w.streamId == v.streamId
    && (forall s :: s in v.visible ==> s in w.visible)
    && (forall s :: s in v.accepted ==> s in w.accepted || s in w.visible)
    && (forall s :: s in v.records ==> s in w.records && w.records[s].messageId == v.records[s].messageId)
  }

  /** No record goes back from deleted to edited or plain, nor to an older edit. */
  ghost predicate RanksGrow(v: map<Sequence, PublicMessage>, w: map<Sequence, PublicMessage>) {
    forall s :: s in v ==> s in w && RankOf(v[s]).AtMost(RankOf(w[s]))
  }

  /** A step that keeps the index valid, loses nothing and lowers no rank. */
  ghost predicate Progress(v: View, w: View) {
    Valid(w) && Keeps(v, w) && RanksGrow(v.records, w.records)
  }

  lemma KeepsIsTransitive(u: View, v: View, w: View)
    requires Keeps(u, v) && Keeps(v, w)
    ensures Keeps(u, w)
  {
  }

  lemma RanksGrowIsTransitive(u: map<Sequence, PublicMessage>, v: map<Sequence, PublicMessage>,
                              w: map<Sequence, PublicMessage>)
    requires RanksGrow(u, v) && RanksGrow(v, w)
    ensures RanksGrow(u, w)
  {
  }

  lemma ProgressIsTransitive(u: View, v: View, w: View)
    requires Progress(u, v) && Progress(v, w)
    ensures Progress(u, w)
  {
    KeepsIsTransitive(u, v, w);
    RanksGrowIsTransitive(u.records, v.records, w.records);
  }

  // --- Private steps ---

  lemma RegisterRanksGrow(v: View, m: PublicMessage)
    ensures RanksGrow(v.records, Register(v, m).records)
  {
  }

  lemma ShowProgress(v: View, m: PublicMessage)
    requires Valid(v) && Check(v, m) == Ok
    ensures Progress(v, Show(v, m))
  {
    ShowKeepsIndexed(v, m);
    RegisterRanksGrow(v, m);
  }

  /** Showing the message right after the cursor may move the cursor onto it. */
  lemma AdvanceProgress(v: View, m: PublicMessage)
    requires Valid(v) && Check(v, m) == Ok && v.cursor.Some? && v.cursor.value + 1 == m.sequence
    ensures Progress(v, Advance(v, m))
  {
    ShowKeepsIndexed(v, m);
    RegisterRanksGrow(v, m);
  }

  lemma MergeProgress(v: View, m: PublicMessage)
    requires Valid(v) && Check(v, m) == Ok
    ensures Progress(v, Merge(v, m)) && Check(Merge(v, m), m) == Ok
  {
    MergeKeepsIndexed(v, m);
  }

  lemma BufferProgress(v: View, m: PublicMessage)
    requires Valid(v) && Check(v, m) == Ok && (v.cursor.Some? ==> v.cursor.value < m.sequence)
    ensures Progress(v, Buffer(v, m))
  {
    RegisterKeepsIndexed(v, m);
    RegisterRanksGrow(v, m);
  }

  lemma {:induction false} InsertAllProgress(v: View, ms: seq<PublicMessage>)
    requires Valid(v)
    ensures Progress(v, InsertAll(v, ms).view)
    decreases |ms|
  {
    if ms != [] && Check(v, ms[0]) == Ok {
      var merged := Merge(v, ms[0]);
      MergeProgress(v, ms[0]);
      ShowProgress(merged, ms[0]);
      ProgressIsTransitive(v, merged, Show(merged, ms[0]));
      InsertAllProgress(Show(merged, ms[0]), ms[1..]);
      ProgressIsTransitive(v, Show(merged, ms[0]), InsertAll(v, ms).view);
    }
  }

  lemma {:induction false} DrainProgress(v: View)
    requires Valid(v)
    ensures Progress(v, Drain(v))
    decreases |v.buffered|
  {
    if v.cursor.Some? && v.cursor.value + 1 in v.buffered {
      var next := v.cursor.value + 1;
      var shown := Advance(v, v.records[next]);
      AdvanceProgress(v, v.records[next]);
      assert v.buffered == v.buffered - {next} + {next};
      DrainProgress(shown);
      ProgressIsTransitive(v, shown, Drain(shown));
    }
  }

  /** Jumping the cursor keeps what was accepted and restores the bound on the buffer. */
  lemma JumpProgress(v: View, c: Sequence)
    requires Valid(v)
    ensures Progress(v, Jump(v, c))
    ensures forall s :: s in Jump(v, c).buffered <==> s in v.buffered && c < s
    ensures forall s :: s in Jump(v, c).visible <==> s in v.visible || (s in v.accepted && s <= c)
  {
    JumpKeepsIndexed(v, c);
  }

  /** A message right after the cursor is shown, and the cursor goes on from it. */
  lemma AdvancedProgress(v: View, m: PublicMessage)
    requires Valid(v) && Check(v, m) == Ok && v.cursor.Some? && v.cursor.value + 1 == m.sequence
    ensures Indexed(Advance(v, m)) && Progress(v, Drain(Advance(v, m))) && m.sequence in Drain(Advance(v, m)).visible
  {
    var shown := Advance(v, m);
    AdvanceProgress(v, m);
    DrainProgress(shown);
    ProgressIsTransitive(v, shown, Drain(shown));
  }

  lemma DeliverProgress(v: View, m: PublicMessage)
    requires Valid(v) && Check(v, m) == Ok
    ensures Progress(v, Deliver(v, m))
  {
    if v.cursor.None? || v.cursor.value + 1 < m.sequence {
      BufferProgress(v, m);
    } else if v.cursor.value + 1 == m.sequence {
      AdvancedProgress(v, m);
    }
  }

  /** An accepted message beyond the cursor waits, and is known to be accepted. */
  lemma WaitingAcceptProgress(v: View, m: PublicMessage, record: PublicMessage)
    requires Valid(v) && Check(v, m) == Ok && (v.cursor.Some? ==> v.cursor.value < m.sequence)
    requires m.sequence in Register(v, m).records && record == Register(v, m).records[m.sequence]
    ensures var w := Buffer(NoteAccepted(v, m), record); Progress(v, w) && m.sequence in w.visible + w.accepted
  {
    RegisterKeepsIndexed(v, m);
    RegisterRanksGrow(v, m);
  }

  /** An accepted message up to just after the cursor is shown at once, and the note is gone again. */
  lemma ShownAcceptProgress(v: View, m: PublicMessage, record: PublicMessage)
    requires Valid(v) && Check(v, m) == Ok && v.cursor.Some? && m.sequence <= v.cursor.value + 1
    requires record == NoteAccepted(v, m).records[m.sequence]
    ensures Show(NoteAccepted(v, m), record) == Show(v, m)
  {
    RegisterKeepsIndexed(v, m);
    assert v.accepted + {m.sequence} - {m.sequence} == v.accepted - {m.sequence};
  }

  /** Accepting a message keeps everything, and holds on to the accepted message itself. */
  lemma AcceptProgress(v: View, m: PublicMessage)
    requires Valid(v) && Check(v, m) == Ok
    ensures var w := ApplyAccepted(v, m).view; Progress(v, w) && m.sequence in w.visible + w.accepted
  {
    NoteAcceptedKeepsIndexed(v, m);
    var record := NoteAccepted(v, m).records[m.sequence];
    if v.cursor.None? || v.cursor.value + 1 < m.sequence {
      WaitingAcceptProgress(v, m, record);
    } else {
      ShownAcceptProgress(v, m, record);
      ShowProgress(v, m);
      if m.sequence == v.cursor.value + 1 {
        AdvancedProgress(v, m);
        assert Advance(NoteAccepted(v, m), record) == Advance(v, m);
      }
    }
  }

  // --- One operation ---

  lemma LatestProgress(v: View, r: LatestResponse)
    requires Valid(v)
    ensures Progress(v, ApplyLatest(v, r).view)
  {
    InsertAllProgress(v, r.messages);
    var inserted := InsertAll(v, r.messages).view;
    var remembered := inserted.(historyBefore := r.nextBeforeSequence, hasMoreBefore := r.hasMoreBefore);
    JumpProgress(remembered, r.throughSequence);
    var jumped := Jump(remembered, r.throughSequence);
    DrainProgress(jumped);
    ProgressIsTransitive(v, remembered, jumped);
    ProgressIsTransitive(v, jumped, Drain(jumped));
  }

  lemma SyncProgress(v: View, r: SyncResponse)
    requires Valid(v)
    ensures Progress(v, ApplySync(v, r).view)
  {
    InsertAllProgress(v, r.messages);
    var inserted := InsertAll(v, r.messages).view;
    JumpProgress(inserted, r.nextAfterSequence);
    var jumped := Jump(inserted, r.nextAfterSequence);
    DrainProgress(jumped);
    ProgressIsTransitive(v, inserted, jumped);
    ProgressIsTransitive(v, jumped, Drain(jumped));
  }

  lemma ReplaceKeeps(v: View, m: PublicMessage)
    requires Valid(v)
    ensures Valid(ReplaceKnown(v, m).view) && Keeps(v, ReplaceKnown(v, m).view)
  {
    assert Bijective(ReplaceKnown(v, m).view.records, v.sequenceOf);
  }

  /** Every operation keeps the index valid and loses nothing, on its throwing paths too. */
  lemma ApplyKeeps(v: View, input: Input)
    requires Valid(v)
    ensures Valid(Apply(v, input).view) && Keeps(v, Apply(v, input).view)
    ensures !input.Replace? ==> Progress(v, Apply(v, input).view)
  {
    match input {
      case Latest(r) => LatestProgress(v, r);
      case Older(r) => InsertAllProgress(v, r.messages);
      case Sync(r) => SyncProgress(v, r);
      case Live(m) => if Check(v, m) == Ok { DeliverProgress(v, m); }
      case Accepted(m) => if Check(v, m) == Ok { AcceptProgress(v, m); }
      case Replace(m) => ReplaceKeeps(v, m);
    }
  }

  // --- Whole runs ---

  function Run(v: View, inputs: seq<Input>): View
    requires Valid(v)
    decreases |inputs|
  {
    if inputs == [] then v
    else
      ApplyKeeps(v, inputs[0]);
      Run(Apply(v, inputs[0]).view, inputs[1..])
  }

  ghost predicate NoReplace(inputs: seq<Input>) {
    forall i :: 0 <= i < |inputs| ==> !inputs[i].Replace?
  }

  /** The index is valid after any sequence of operations, thrown or not, and keeps what it held. */
  lemma {:induction false} RunKeeps(v: View, inputs: seq<Input>)
    requires Valid(v)
    ensures Valid(Run(v, inputs)) && Keeps(v, Run(v, inputs))
    ensures NoReplace(inputs) ==> Progress(v, Run(v, inputs))
    decreases |inputs|
  {
    if inputs != [] {
      var next := Apply(v, inputs[0]).view;
      ApplyKeeps(v, inputs[0]);
      RunKeeps(next, inputs[1..]);
      KeepsIsTransitive(v, next, Run(v, inputs));
      if NoReplace(inputs) {
        assert !inputs[0].Replace? && NoReplace(inputs[1..]);
        ProgressIsTransitive(v, next, Run(v, inputs));
      }
    }
  }

  /** From its acceptance on, a message is for ever in exactly one place: waiting or on display. */
  lemma AcceptedIsNeverLost(v: View, m: PublicMessage, later: seq<Input>)
    requires Valid(v) && ApplyAccepted(v, m).outcome == Ok
    ensures (AcceptProgress(v, m);
             var accepted := ApplyAccepted(v, m).view;
             var w := Run(accepted, later);
             && (m.sequence in w.visible) != (m.sequence in w.buffered)
             && (m.sequence in accepted.visible ==> m.sequence in w.visible))
  {
    AcceptProgress(v, m);
    RunKeeps(ApplyAccepted(v, m).view, later);
  }

  // --- History merging keeps the furthest version ---

  /** `top` is the greatest of the rank known before a page and those in the page. */
  ghost predicate IsTopRank(v: View, ms: seq<PublicMessage>, s: Sequence, top: Rank) {
    && (s in v.records ==> RankOf(v.records[s]).AtMost(top))
    && (forall m :: m in ms && m.sequence == s ==> RankOf(m).AtMost(top))
    && ((s in v.records && RankOf(v.records[s]) == top)
        || (exists m :: m in ms && m.sequence == s && RankOf(m) == top))
  }

  lemma InsertHistoryMaximises(v: View, m: PublicMessage)
    requires Valid(v) && Check(v, m) == Ok
    ensures var w := InsertHistory(v, m).view;
      && Valid(w)
      && RankOf(w.records[m.sequence])
           == (if m.sequence in v.records then MaxRank(RankOf(m), RankOf(v.records[m.sequence])) else RankOf(m))
      && (forall s :: s != m.sequence && s in v.records ==> w.records[s] == v.records[s])
      && (forall s :: s in w.records ==> s in v.records || s == m.sequence)
  {
    MergeProgress(v, m);
    ShowProgress(Merge(v, m), m);
  }

  /** The first message of a page, and then the rest. */
  lemma TopRankOfMore(v: View, w: View, ms: seq<PublicMessage>, s: Sequence, top: Rank)
    requires Valid(v) && ms != [] && Check(v, ms[0]) == Ok && w == InsertHistory(v, ms[0]).view
    requires IsTopRank(w, ms[1..], s, top)
    ensures IsTopRank(v, ms, s, top)
  {
    InsertHistoryMaximises(v, ms[0]);
    assert ms == [ms[0]] + ms[1..];
    assert forall m :: m in ms <==> m == ms[0] || m in ms[1..];
  }

  /** After a page, each message shows the furthest of all versions seen of it. */
  lemma {:induction false} InsertAllReachesTopRank(v: View, ms: seq<PublicMessage>, s: Sequence)
    requires Valid(v) && InsertAll(v, ms).outcome == Ok && s in InsertAll(v, ms).view.records
    ensures IsTopRank(v, ms, s, RankOf(InsertAll(v, ms).view.records[s]))
    decreases |ms|
  {
    if ms != [] {
      var w := InsertHistory(v, ms[0]).view;
      InsertHistoryMaximises(v, ms[0]);
      InsertAllReachesTopRank(w, ms[1..], s);
      TopRankOfMore(v, w, ms, s, RankOf(InsertAll(v, ms).view.records[s]));
    }
  }

  /** The version shown does not depend on the order in which history arrives, nor on repeats. */
  lemma FinalRankIgnoresOrder(v: View, a: seq<PublicMessage>, b: seq<PublicMessage>, s: Sequence)
    requires Valid(v) && InsertAll(v, a).outcome == Ok && InsertAll(v, b).outcome == Ok
    requires forall m :: m in a <==> m in b
    requires s in InsertAll(v, a).view.records && s in InsertAll(v, b).view.records
    ensures RankOf(InsertAll(v, a).view.records[s]) == RankOf(InsertAll(v, b).view.records[s])
  {
    InsertAllReachesTopRank(v, a, s);
    InsertAllReachesTopRank(v, b, s);
  }
}
