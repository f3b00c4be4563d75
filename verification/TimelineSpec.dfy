/** What each timeline operation does, on values. Everything is kept by sequence here, and the
    visible list is a set: its order is a consequence. The class in
    StreamMessagesTimeline.dfy refines this. */
module TimelineSpec {
  import opened Messages
  import opened Contracts

  datatype ProtocolError =
    | MessageIdentityConflict
    | MessageTargetMismatch
    | SyncCursorMismatch
    | SyncNoProgress

  datatype Outcome = Ok | Thrown(error: ProtocolError)

  /**
   * `visible` are the sequences on display, `accepted` those whose acceptance is known but
   * which are not on display yet, `buffered` those of live messages waiting behind a gap.
   */
  datatype View = View(
    target: ClientTarget,
    streamId: string,
    records: map<Sequence, PublicMessage>,
    sequenceOf: map<MessageId, Sequence>,
    visible: set<Sequence>,
    accepted: set<Sequence>,
    buffered: set<Sequence>,
    cursor: Option<Sequence>,
    historyBefore: Option<Sequence>,
    hasMoreBefore: bool)

  /** The state an operation leaves behind, also when it throws. */
  datatype Step = Step(view: View, outcome: Outcome)

  function Fresh(target: ClientTarget): View {
    View(target, CanonicalStreamId(target), map[], map[], {}, {}, {}, None, None, false)
  }

  // --- Invariants ---

  predicate HasIdentity(m: PublicMessage, target: ClientTarget, streamId: string) {
    m.streamId == streamId && m.target == target
  }

  /** Records and ids are two directions of one bijection between sequences and ids. */
  ghost predicate Bijective(records: map<Sequence, PublicMessage>, sequenceOf: map<MessageId, Sequence>) {
    && (forall s :: s in records ==>
          && records[s].sequence == s
          && records[s].messageId in sequenceOf
          && sequenceOf[records[s].messageId] == s)
    && (forall id :: id in sequenceOf ==> sequenceOf[id] in records && records[sequenceOf[id]].messageId == id)
  }

  ghost predicate AllOf(records: map<Sequence, PublicMessage>, target: ClientTarget, streamId: string) {
    forall s :: s in records ==> HasIdentity(records[s], target, streamId)
  }

  /** The index is consistent; holds between any two private steps of an operation. */
  ghost predicate Indexed(v: View) {
    && Bijective(v.records, v.sequenceOf)
    && AllOf(v.records, v.target, v.streamId)
    && (forall s :: s in v.visible ==> s in v.records)
    && (forall s :: s in v.buffered ==> s in v.records && s !in v.visible)
    && (forall s :: s in v.accepted ==> s in v.records && s !in v.visible)
  }

  /** Holds between any two operations, whether or not they threw. */
  ghost predicate Valid(v: View) {
    && Indexed(v)
    && (forall s :: s in v.buffered ==> v.cursor.Some? ==> v.cursor.value < s)
    && (forall s :: s in v.accepted ==> s in v.buffered)
  }

  /** The message's id is known under another sequence, or its sequence under another id. */
  predicate Conflicts(v: View, m: PublicMessage) {
    || (m.sequence in v.records && v.records[m.sequence].messageId != m.messageId)
    || (m.messageId in v.sequenceOf && v.sequenceOf[m.messageId] != m.sequence)
  }

  function Check(v: View, m: PublicMessage): Outcome {
    if !HasIdentity(m, v.target, v.streamId) then Thrown(MessageTargetMismatch)
    else if Conflicts(v, m) then Thrown(MessageIdentityConflict)
    else Ok
  }

  // --- Private steps ---

  function Register(v: View, m: PublicMessage): View {
    if m.sequence in v.records then v
    else v.(records := v.records[m.sequence := m], sequenceOf := v.sequenceOf[m.messageId := m.sequence])
  }

  /** Register the message and put it on display. */
  function Show(v: View, m: PublicMessage): View {
    Register(v, m).(
    visible := v.visible + {m.sequence},
    accepted := v.accepted - {m.sequence},
    buffered := v.buffered - {m.sequence})
  }

  /** Show the message right after the cursor, and move the cursor onto it. */
  function Advance(v: View, m: PublicMessage): View {
    Show(v, m).(cursor := Some(m.sequence))
  }

  function Buffer(v: View, m: PublicMessage): View {
    if m.sequence in v.visible then v
    else Register(v, m).(buffered := v.buffered + {m.sequence})
  }

  /** Does a history page replace what is known? Never a tombstone, never by an older edit. */
  predicate Overwrites(current: PublicMessage, incoming: PublicMessage) {
    current.body.Text? &&
    !(current.body.editedAt.Some? && incoming.body.Text? &&
      (incoming.body.editedAt.None? || current.body.editedAt.value > incoming.body.editedAt.value))
  }

  function Merge(v: View, m: PublicMessage): View {
    if m.sequence in v.records && Overwrites(v.records[m.sequence], m)
    then v.(records := v.records[m.sequence := m]) else v
  }

  function InsertHistory(v: View, m: PublicMessage): Step {
    var check := Check(v, m);
    if check != Ok then Step(v, check) else Step(Show(Merge(v, m), m), Ok)
  }

  /** Inserts a page message by message; a conflict leaves the page partly inserted. */
  function InsertAll(v: View, ms: seq<PublicMessage>): Step
    decreases |ms|
  {
    if ms == [] then Step(v, Ok)
    else
      var first := InsertHistory(v, ms[0]);
      if first.outcome != Ok then first else InsertAll(first.view, ms[1..])
  }

  /** Removes the given sequences from the buffer; those known to be accepted go on display. */
  function DiscardThese(v: View, gone: set<Sequence>): View {
    v.(
    visible := v.visible + gone * v.accepted,
    accepted := v.accepted - gone,
    buffered := v.buffered - gone)
  }

  function AtOrBefore(buffered: set<Sequence>, cursor: Option<Sequence>): set<Sequence> {
    set s | s in buffered && cursor.Some? && s <= cursor.value
  }

  function Discard(v: View): View {
    DiscardThese(v, AtOrBefore(v.buffered, v.cursor))
  }

  /** Moves the cursor to a page's end and drops what the page made superfluous. */
  function Jump(v: View, c: Sequence): View {
    Discard(v.(cursor := Some(c)))
  }

  function Drain(v: View): View
    requires Indexed(v)
    ensures Indexed(Drain(v))
    decreases |v.buffered|
  {
    if v.cursor.None? || v.cursor.value + 1 !in v.buffered then v
    else
      var next := v.cursor.value + 1;
      assert v.buffered == v.buffered - {next} + {next};
      ShowKeepsIndexed(v, v.records[next]);
      Drain(Advance(v, v.records[next]))
  }

  // --- Operations ---

  function ApplyLatest(v: View, r: LatestResponse): Step
    requires Indexed(v)
  {
    if r.streamId != v.streamId then Step(v, Thrown(MessageTargetMismatch))
    else
      InsertAllKeepsIndexed(v, r.messages);
      var s := InsertAll(v, r.messages);
      if s.outcome != Ok then s
      else
        var remembered := s.view.(historyBefore := r.nextBeforeSequence, hasMoreBefore := r.hasMoreBefore);
        JumpKeepsIndexed(remembered, r.throughSequence);
        Step(Drain(Jump(remembered, r.throughSequence)), Ok)
  }

  function ApplyOlder(v: View, r: OlderResponse): Step {
    if r.streamId != v.streamId then Step(v, Thrown(MessageTargetMismatch))
    else
      var s := InsertAll(v, r.messages);
      if s.outcome != Ok then s
      else Step(s.view.(historyBefore := r.nextBeforeSequence, hasMoreBefore := r.hasMoreBefore), Ok)
  }

  function ApplySync(v: View, r: SyncResponse): Step
    requires Indexed(v)
  {
    if r.streamId != v.streamId then Step(v, Thrown(MessageTargetMismatch))
    else if v.cursor != Some(r.afterSequence) then Step(v, Thrown(SyncCursorMismatch))
    else if r.hasMoreAfter && r.nextAfterSequence <= r.afterSequence then Step(v, Thrown(SyncNoProgress))
    else
      InsertAllKeepsIndexed(v, r.messages);
      var s := InsertAll(v, r.messages);
      if s.outcome != Ok then s
      else
        JumpKeepsIndexed(s.view, r.nextAfterSequence);
        var jumped := Jump(s.view, r.nextAfterSequence);
        Step(if r.hasMoreAfter then jumped else Drain(jumped), Ok)
  }

  /** Where a live message that passed its checks goes. */
  function Deliver(v: View, m: PublicMessage): View
    requires Indexed(v) && Check(v, m) == Ok
  {
    if v.cursor.None? then Buffer(v, m)
    else if m.sequence <= v.cursor.value then v
    else if m.sequence == v.cursor.value + 1 then
      ShowKeepsIndexed(v, m);
      Drain(Advance(v, m))
    else Buffer(v, m)
  }

  function ApplyLive(v: View, m: PublicMessage): Step
    requires Indexed(v)
  {
    if Check(v, m) != Ok then Step(v, Check(v, m)) else Step(Deliver(v, m), Ok)
  }

  /** Registers an accepted message and notes its acceptance while it is not on display. */
  function NoteAccepted(v: View, m: PublicMessage): View {
    var w := Register(v, m);
    if m.sequence in w.visible then w else w.(accepted := w.accepted + {m.sequence})
  }

  function ApplyAccepted(v: View, m: PublicMessage): Step
    requires Indexed(v)
  {
    if Check(v, m) != Ok then Step(v, Check(v, m))
    else
      NoteAcceptedKeepsIndexed(v, m);
      var w := NoteAccepted(v, m);
      var record := w.records[m.sequence];
      if w.cursor.Some? && record.sequence <= w.cursor.value then Step(Show(w, record), Ok)
      else Step(Deliver(w, record), Ok)
  }

  function ReplaceKnown(v: View, m: PublicMessage): Step {
    if Check(v, m) != Ok then Step(v, Check(v, m))
    else if m.sequence in v.records then Step(v.(records := v.records[m.sequence := m]), Ok)
    else Step(v, Ok)
  }

  // --- Private steps keep the index consistent ---

  lemma RegisterKeepsIndexed(v: View, m: PublicMessage)
    requires Indexed(v) && Check(v, m) == Ok
    ensures Indexed(Register(v, m)) && m.sequence in Register(v, m).records
    ensures Register(v, m).records[m.sequence].messageId == m.messageId
  {
    assert Bijective(Register(v, m).records, Register(v, m).sequenceOf);
  }

  lemma ShowKeepsIndexed(v: View, m: PublicMessage)
    requires Indexed(v) && Check(v, m) == Ok
    ensures Indexed(Show(v, m))
  {
    RegisterKeepsIndexed(v, m);
  }

  lemma MergeKeepsIndexed(v: View, m: PublicMessage)
    requires Indexed(v) && Check(v, m) == Ok
    ensures Indexed(Merge(v, m)) && Check(Merge(v, m), m) == Ok
  {
    assert Bijective(Merge(v, m).records, Merge(v, m).sequenceOf);
  }

  lemma JumpKeepsIndexed(v: View, c: Sequence)
    requires Indexed(v)
    ensures Indexed(Jump(v, c))
  {
  }

  lemma NoteAcceptedKeepsIndexed(v: View, m: PublicMessage)
    requires Indexed(v) && Check(v, m) == Ok
    ensures Indexed(NoteAccepted(v, m)) && m.sequence in NoteAccepted(v, m).records
    ensures NoteAccepted(v, m).records[m.sequence].sequence == m.sequence
    ensures Check(NoteAccepted(v, m), NoteAccepted(v, m).records[m.sequence]) == Ok
  {
    RegisterKeepsIndexed(v, m);
  }

  lemma {:induction false} InsertAllKeepsIndexed(v: View, ms: seq<PublicMessage>)
    requires Indexed(v)
    ensures Indexed(InsertAll(v, ms).view)
    decreases |ms|
  {
    if ms != [] && Check(v, ms[0]) == Ok {
      MergeKeepsIndexed(v, ms[0]);
      ShowKeepsIndexed(Merge(v, ms[0]), ms[0]);
      InsertAllKeepsIndexed(InsertHistory(v, ms[0]).view, ms[1..]);
    }
  }
}
