/** Concurrent sends, edits and deletes, interleaved step by step over one store. */
module SendRuns {
  import opened Messages
  import opened MessageStore
  import opened MessageTables
  import opened StoreInvariants
  import opened StoreAnswers

  /** `text` is missing when it does not survive normalisation. */
  datatype Request = Request(key: Key, target: Target, text: Option<string>, fingerprint: Fingerprint)

  datatype Rejection = InvalidText | NotResolved | WriteForbidden | UnknownTarget | IdempotencyConflict | MessageDeleted

  datatype Persistence = New | Earlier

  datatype Answer =
    | Accepted(persistence: Persistence, message: AppendedMessage)
    | Rejected(reason: Rejection)
    | Crashed(error: StoreError)

  /** How far a send has come: between these steps, other sends run. */
  datatype Send =
    | Asked(request: Request)
    | Missed(request: Request)
    | Cleared(request: Request, messageId: MessageId)
    | Answered(request: Request, answer: Answer)

  /** What resolving the target and authorising the write say. */
  datatype Clearance = Unresolved | Denied | Allowed(messageId: MessageId)

  datatype Event =
    | Ask(i: int, request: Request)
    | LookUp(i: int)
    | Clear(i: int, clearance: Clearance)
    | Store(i: int, now: int)
    | EditMessage(id: MessageId, actor: string, target: Target, text: string, now: int)
    | DeleteMessage(id: MessageId, actor: string, target: Target, now: int)

  /**
   * `edits` counts the accepted edits of each message, and `texts` are the texts it was given last, by the
   * send that created it or an accepted edit; only the claims read them.
   */
  datatype System = System(
    db: Db, sends: map<int, Send>, edits: map<MessageId, int>, texts: map<MessageId, string>)

  // --- The steps of one send ---

  function AnswerFromReceipt(r: Request, found: Lookup): Answer
    requires found.Found?
  {
    if found.fingerprint != r.fingerprint then Rejected(IdempotencyConflict)
    else if found.message.None? then Rejected(MessageDeleted)
    else Accepted(Earlier, found.message.value)
  }

  /** Before any transaction: text check, then a lookup of the key. */
  function LookUpStep(db: Db, r: Request): Send {
    if r.text.None? then Answered(r, Rejected(InvalidText))
    else match FindReceipt(db, r.key)
      case NotFound => Missed(r)
      case Broken(e) => Answered(r, Crashed(e))
      case Found(f, m) => Answered(r, AnswerFromReceipt(r, Found(f, m)))
  }

  function ClearStep(r: Request, clearance: Clearance): Send {
    match clearance
    case Unresolved => Answered(r, Rejected(NotResolved))
    case Denied => Answered(r, Rejected(WriteForbidden))
    case Allowed(id) => Cleared(r, id)
  }

  function AnswerFromAppend(r: Request, result: AppendResult): Answer {
    match result
    case Created(m) => Accepted(New, m)
    case Existing(found) => if found.Found? then AnswerFromReceipt(r, found) else Crashed(LifecycleError)
    case TargetNotFound => Rejected(UnknownTarget)
    case AppendFailed(e) => Crashed(e)
  }

  function InputOf(r: Request, id: MessageId, now: int): AppendInput
    requires r.text.Some?
  {
    AppendInput(r.key, id, r.target, r.text.value, r.fingerprint, now)
  }

  // --- One step of the system ---

  function Count(edits: map<MessageId, int>, id: MessageId): int {
    if id in edits then edits[id] else 0
  }

  function EditStep(sys: System, id: MessageId, actor: string, t: Target, text: string, now: int): System {
    var (after, result) := Edit(sys.db, id, actor, t, text, now);
    System(after, sys.sends,
           if result.EditedRow? then sys.edits[id := Count(sys.edits, id) + 1] else sys.edits,
           if result.EditedRow? then sys.texts[id := text] else sys.texts)
  }

  ghost function Step(sys: System, e: Event): System {
    match e
    case Ask(i, r) =>
      if i in sys.sends then sys else sys.(sends := sys.sends[i := Asked(r)])
    case LookUp(i) =>
      if i !in sys.sends || !sys.sends[i].Asked? then sys
      else sys.(sends := sys.sends[i := LookUpStep(sys.db, sys.sends[i].request)])
    case Clear(i, clearance) =>
      if i !in sys.sends || !sys.sends[i].Missed? then sys
      else sys.(sends := sys.sends[i := ClearStep(sys.sends[i].request, clearance)])
    case Store(i, now) =>
      if i !in sys.sends || !sys.sends[i].Cleared? || sys.sends[i].request.text.None? then sys
      else
        var r := sys.sends[i].request;
        var (after, result) := Append(sys.db, InputOf(r, sys.sends[i].messageId, now));
        sys.(db := after, sends := sys.sends[i := Answered(r, AnswerFromAppend(r, result))],
             texts := if result.Created? then sys.texts[sys.sends[i].messageId := r.text.value] else sys.texts)
    case EditMessage(id, actor, t, text, now) => EditStep(sys, id, actor, t, text, now)
    case DeleteMessage(id, actor, t, now) =>
      sys.(db := Delete(sys.db, id, actor, t, now).0)
  }

  ghost function Run(sys: System, events: seq<Event>): System
    decreases |events|
  {
    if events == [] then sys else Run(Step(sys, events[0]), events[1..])
  }

  ghost const START := System(Db(map[], map[], map[]), map[], map[], map[])

  /** A send that nobody interrupts takes its three steps in a row. */
  method ExecuteSendMessage(tables: Tables, r: Request, clearance: Clearance, now: int) returns (answer: Answer)
    modifies tables
    ensures var alone := System(old(tables.Contents()), map[0 := Asked(r)], map[], map[]);
            var after := Run(alone, [LookUp(0), Clear(0, clearance), Store(0, now)]);
            after.db == tables.Contents() && 0 in after.sends && after.sends[0] == Answered(r, answer)
    ensures old(tables.Valid()) ==> tables.Valid() && Grows(old(tables.Contents()), tables.Contents())
  {
    ghost var alone := System(tables.Contents(), map[0 := Asked(r)], map[], map[]);
    RunThree(alone, LookUp(0), Clear(0, clearance), Store(0, now));
    GrowsIsReflexive(tables.Contents());
    if r.text.None? {
      return Rejected(InvalidText);
    }
    match FindReceipt(tables.Contents(), r.key) {
      case Found(f, m) => return AnswerFromReceipt(r, Found(f, m));
      case Broken(e) => return Crashed(e);
      case NotFound =>
    }
    match clearance {
      case Unresolved => return Rejected(NotResolved);
      case Denied => return Rejected(WriteForbidden);
      case Allowed(id) =>
        var result := tables.AppendTextMessage(InputOf(r, id, now));
        answer := AnswerFromAppend(r, result);
    }
  }

  lemma RunThree(sys: System, a: Event, b: Event, c: Event)
    ensures Run(sys, [a, b, c]) == Step(Step(Step(sys, a), b), c)
  {
    var x, y := Step(sys, a), Step(Step(sys, a), b);
    assert [a, b, c][1..] == [b, c] && [b, c][1..] == [c] && [c][1..] == [];
    assert Run(x, [b, c]) == Run(y, [c]) == Run(Step(y, c), []);
  }

  // --- What every answer means, for ever ---

  ghost predicate Stored(db: Db, r: Request, id: MessageId) {
    r.key in db.receipts && db.receipts[r.key] == Receipt(r.fingerprint, id) && id in db.messages
  }

  ghost predicate Names(row: Row, m: AppendedMessage) {
    && row.messageId == m.messageId && row.sequence == m.sequence
    && row.target == m.target && row.senderActorId == m.senderActorId && row.createdAt == m.createdAt
  }

  /** A new message is the one that was asked for. */
  ghost predicate IsAsAsked(r: Request, m: AppendedMessage) {
    r.text == Some(m.text) && m.target == r.target && m.senderActorId == r.key.senderActorId
  }

  ghost predicate Justified(db: Db, r: Request, a: Answer) {
    match a
    case Accepted(p, m) =>
      Stored(db, r, m.messageId) && Names(db.messages[m.messageId], m) && (p.New? ==> IsAsAsked(r, m))
    case Rejected(IdempotencyConflict) => r.key in db.receipts && db.receipts[r.key].fingerprint != r.fingerprint
    case Rejected(MessageDeleted) =>
      exists id :: Stored(db, r, id) && db.messages[id].deletedAt.Some?
    case Rejected(_) => true
    case Crashed(e) => e == UniqueViolation
  }

  ghost predicate AllJustified(db: Db, sends: map<int, Send>) {
    forall i :: i in sends && sends[i].Answered? ==> Justified(db, sends[i].request, sends[i].answer)
  }

  predicate IsNew(s: Send) {
    s.Answered? && s.answer.Accepted? && s.answer.persistence.New?
  }

  /** Of all sends with one key, at most one created a message. */
  ghost predicate CreatedOnce(sends: map<int, Send>) {
    forall i, j | i in sends && j in sends && IsNew(sends[i]) && IsNew(sends[j]) ::
      sends[i].request.key == sends[j].request.key ==> i == j
  }

  predicate CountsChanges(row: Row, edits: int) {
    && row.version == 1 + edits + (if row.deletedAt.Some? then 1 else 0)
    && (row.editedAt.Some? <==> edits > 0)
  }

  /** Versions count from 1: one for each accepted edit, and one for the deletion. */
  ghost predicate AllCounted(messages: Rows, edits: map<MessageId, int>) {
    && (forall id :: id in messages ==> CountsChanges(messages[id], Count(edits, id)))
    && (forall id :: id in edits ==> id in messages && edits[id] >= 0)
  }

  /** A message that stands has the text it was given last. */
  ghost predicate AllTexts(messages: Rows, texts: map<MessageId, string>) {
    forall id :: id in messages && messages[id].deletedAt.None? ==>
      id in texts && messages[id].content == Some(texts[id])
  }

  ghost predicate Good(sys: System) {
    && Valid(sys.db)
    && AllTexts(sys.db.messages, sys.texts)
    && AllJustified(sys.db, sys.sends)
    && CreatedOnce(sys.sends)
    && AllCounted(sys.db.messages, sys.edits)
  }

  // --- Steps keep it ---

  lemma JustifiedGrows(db: Db, later: Db, r: Request, a: Answer)
    requires Grows(db, later) && Justified(db, r, a)
    ensures Justified(later, r, a)
  {
    if a == Rejected(MessageDeleted) {
      var id :| Stored(db, r, id) && db.messages[id].deletedAt.Some?;
      assert Stored(later, r, id) && later.messages[id] == db.messages[id];
    }
  }

  lemma AllJustifiedGrows(db: Db, later: Db, sends: map<int, Send>)
    requires Grows(db, later) && AllJustified(db, sends)
    ensures AllJustified(later, sends)
  {
    forall i | i in sends && sends[i].Answered?
      ensures Justified(later, sends[i].request, sends[i].answer)
    {
      JustifiedGrows(db, later, sends[i].request, sends[i].answer);
    }
  }

  /** An answer from a receipt is a conflict exactly when the fingerprints differ, and is always justified. */
  lemma ReceiptAnswerIsJustified(db: Db, r: Request)
    requires Valid(db) && r.key in db.receipts
    ensures FindReceipt(db, r.key).Found?
    ensures var a := AnswerFromReceipt(r, FindReceipt(db, r.key));
            && Justified(db, r, a)
            && (a == Rejected(IdempotencyConflict) <==> db.receipts[r.key].fingerprint != r.fingerprint)
            && !(a.Accepted? && a.persistence.New?)
  {
    LookupIsExact(db, r.key);
    var id := db.receipts[r.key].resultMessageId;
    assert Receives(db.messages, r.key, db.receipts[r.key]);
    assert InStream(db.streams, id, db.messages[id]);
    if db.receipts[r.key].fingerprint == r.fingerprint {
      assert Stored(db, r, id);
    }
  }

  /** The answer after the transaction is justified by what it left behind. */
  lemma AppendAnswerIsJustified(db: Db, r: Request, id: MessageId, now: int)
    requires Valid(db) && r.text.Some?
    ensures var (after, result) := Append(db, InputOf(r, id, now));
            var answer := AnswerFromAppend(r, result);
            && Valid(after) && Grows(db, after)
            && Justified(after, r, answer)
            && (IsNew(Answered(r, answer)) ==> r.key !in db.receipts)
  {
    var input := InputOf(r, id, now);
    var (after, result) := Append(db, input);
    AppendKeeps(db, input);
    AppendAnswers(db, input);
    if result.Existing? {
      assert result.lookup == FindReceipt(db, r.key);
      ReceiptAnswerIsJustified(db, r);
    } else if result.Created? {
      assert Stored(after, r, input.messageId);
    }
  }

  /** What the transaction of a send does to the store, the counts and the texts. */
  lemma StoreWrites(sys: System, r: Request, id: MessageId, now: int)
    requires Good(sys) && r.text.Some?
    ensures var (after, result) := Append(sys.db, InputOf(r, id, now));
            && Valid(after) && Grows(sys.db, after) && AllCounted(after.messages, sys.edits)
            && AllTexts(after.messages, if result.Created? then sys.texts[id := r.text.value] else sys.texts)
  {
    var (after, result) := Append(sys.db, InputOf(r, id, now));
    AppendKeeps(sys.db, InputOf(r, id, now));
    StoredIsCounted(sys.db, after, sys.edits, InputOf(r, id, now), result);
    StoredHasText(sys, r, id, now);
  }

  lemma StoredSends(sys: System, i: int, r: Request, id: MessageId, now: int)
    requires Good(sys) && r.text.Some?
    ensures var (after, result) := Append(sys.db, InputOf(r, id, now));
            var sends := sys.sends[i := Answered(r, AnswerFromAppend(r, result))];
            AllJustified(after, sends) && CreatedOnce(sends)
  {
    var (after, result) := Append(sys.db, InputOf(r, id, now));
    AppendAnswerIsJustified(sys.db, r, id, now);
    AllJustifiedGrows(sys.db, after, sys.sends);
    NewIsUnique(sys.db, sys.sends, i, r, AnswerFromAppend(r, result));
  }

  lemma StoreStepKeeps(sys: System, i: int, now: int)
    requires Good(sys) && i in sys.sends && sys.sends[i].Cleared? && sys.sends[i].request.text.Some?
    ensures Good(Step(sys, Store(i, now))) && Grows(sys.db, Step(sys, Store(i, now)).db)
  {
    StoreWrites(sys, sys.sends[i].request, sys.sends[i].messageId, now);
    StoredSends(sys, i, sys.sends[i].request, sys.sends[i].messageId, now);
  }

  lemma NewIsUnique(db: Db, sends: map<int, Send>, i: int, r: Request, answer: Answer)
    requires AllJustified(db, sends) && CreatedOnce(sends) && (IsNew(Answered(r, answer)) ==> r.key !in db.receipts)
    ensures CreatedOnce(sends[i := Answered(r, answer)])
  {
    forall j | j in sends && IsNew(sends[j])
      ensures IsNew(Answered(r, answer)) ==> sends[j].request.key != r.key
    {
      assert Justified(db, sends[j].request, sends[j].answer);
    }
  }

  lemma StoredIsCounted(db: Db, after: Db, edits: map<MessageId, int>, input: AppendInput, result: AppendResult)
    requires AllCounted(db.messages, edits)
    requires !result.Created? ==> after == db
    requires result.Created? ==>
      input.messageId !in db.messages
          && after.messages == db.messages[input.messageId := NewRow(input, result.message.sequence)]
    ensures AllCounted(after.messages, edits)
  {
  }

  lemma StoredHasText(sys: System, r: Request, id: MessageId, now: int)
    requires Valid(sys.db) && AllTexts(sys.db.messages, sys.texts) && r.text.Some?
    ensures var (after, result) := Append(sys.db, InputOf(r, id, now));
            AllTexts(after.messages, if result.Created? then sys.texts[id := r.text.value] else sys.texts)
  {
    AppendAnswers(sys.db, InputOf(r, id, now));
  }

  lemma LookUpIsJustified(db: Db, r: Request)
    requires Valid(db)
    ensures var s := LookUpStep(db, r);
            s.request == r && !IsNew(s) && (s.Answered? ==> Justified(db, r, s.answer))
  {
    LookupIsExact(db, r.key);
    if r.key in db.receipts {
      ReceiptAnswerIsJustified(db, r);
    }
  }

  /** A send that has got no further than an answer that created nothing. */
  lemma SendKeeps(sys: System, i: int, s: Send)
    requires Good(sys) && !IsNew(s) && (s.Answered? ==> Justified(sys.db, s.request, s.answer))
    ensures Good(sys.(sends := sys.sends[i := s]))
  {
    var sends := sys.sends[i := s];
    assert AllJustified(sys.db, sends);
    assert CreatedOnce(sends);
  }

  lemma LookUpStepKeeps(sys: System, i: int)
    requires Good(sys) && i in sys.sends && sys.sends[i].Asked?
    ensures Good(Step(sys, LookUp(i)))
  {
    LookUpIsJustified(sys.db, sys.sends[i].request);
    SendKeeps(sys, i, LookUpStep(sys.db, sys.sends[i].request));
  }

  lemma EditIsCounted(db: Db, edits: map<MessageId, int>, id: MessageId, actor: string, t: Target, text: string,
                      now: int)
    requires AllCounted(db.messages, edits)
    ensures var (after, result) := Edit(db, id, actor, t, text, now);
            AllCounted(after.messages, if result.EditedRow? then edits[id := Count(edits, id) + 1] else edits)
  {
  }

  /** What a step may do to the store and the counts without touching the sends. */
  ghost predicate StoreChange(sys: System, next: System) {
    && next.sends == sys.sends && Valid(next.db) && Grows(sys.db, next.db)
    && AllCounted(next.db.messages, next.edits) && AllTexts(next.db.messages, next.texts)
  }

  lemma StoreChangeKeeps(sys: System, next: System)
    requires Good(sys) && StoreChange(sys, next)
    ensures Good(next) && Grows(sys.db, next.db)
  {
    AllJustifiedGrows(sys.db, next.db, sys.sends);
  }

  lemma EditedHasText(
    db: Db, texts: map<MessageId, string>, id: MessageId, actor: string, t: Target, text: string, now: int)
    requires Valid(db) && AllTexts(db.messages, texts)
    ensures var (after, result) := Edit(db, id, actor, t, text, now);
            AllTexts(after.messages, if result.EditedRow? then texts[id := text] else texts)
  {
    EditAnswers(db, id, actor, t, text, now);
  }

  lemma EditStepChanges(sys: System, id: MessageId, actor: string, t: Target, text: string, now: int)
    requires Good(sys)
    ensures StoreChange(sys, EditStep(sys, id, actor, t, text, now))
  {
    var next := EditStep(sys, id, actor, t, text, now);
    assert AllCounted(next.db.messages, next.edits) by {
      EditIsCounted(sys.db, sys.edits, id, actor, t, text, now);
    }
    assert Valid(next.db) && Grows(sys.db, next.db) by {
      EditKeeps(sys.db, id, actor, t, text, now);
    }
    assert AllTexts(next.db.messages, next.texts) by {
      EditedHasText(sys.db, sys.texts, id, actor, t, text, now);
    }
  }

  lemma DeletionIsCounted(db: Db, edits: map<MessageId, int>, id: MessageId, actor: string, t: Target, now: int)
    requires AllCounted(db.messages, edits)
    ensures AllCounted(Delete(db, id, actor, t, now).0.messages, edits)
  {
  }

  lemma DeleteStepChanges(sys: System, id: MessageId, actor: string, t: Target, now: int)
    requires Good(sys)
    ensures StoreChange(sys, sys.(db := Delete(sys.db, id, actor, t, now).0))
  {
    DeletionIsCounted(sys.db, sys.edits, id, actor, t, now);
    DeleteKeeps(sys.db, id, actor, t, now);
    DeleteAnswers(sys.db, id, actor, t, now);
  }

  lemma AskStepKeeps(sys: System, i: int, r: Request)
    requires Good(sys)
    ensures Good(Step(sys, Ask(i, r)))
  {
    SendKeeps(sys, i, Asked(r));
  }

  lemma ClearStepKeeps(sys: System, i: int, clearance: Clearance)
    requires Good(sys)
    ensures Good(Step(sys, Clear(i, clearance)))
  {
    if i in sys.sends && sys.sends[i].Missed? {
      SendKeeps(sys, i, ClearStep(sys.sends[i].request, clearance));
    }
  }

  lemma StepKeeps(sys: System, e: Event)
    requires Good(sys)
    ensures Good(Step(sys, e)) && Grows(sys.db, Step(sys, e).db)
  {
    assert Grows(sys.db, sys.db) by {
      GrowsIsReflexive(sys.db);
    }
    match e {
      case Ask(i, r) => AskStepKeeps(sys, i, r);
      case LookUp(i) => if i in sys.sends && sys.sends[i].Asked? { LookUpStepKeeps(sys, i); }
      case Clear(i, clearance) => ClearStepKeeps(sys, i, clearance);
      case Store(i, now) =>
        if i in sys.sends && sys.sends[i].Cleared? && sys.sends[i].request.text.Some? {
          StoreStepKeeps(sys, i, now);
        }
      case EditMessage(id, actor, t, text, now) =>
        EditStepChanges(sys, id, actor, t, text, now);
        StoreChangeKeeps(sys, Step(sys, e));
      case DeleteMessage(id, actor, t, now) =>
        DeleteStepChanges(sys, id, actor, t, now);
        StoreChangeKeeps(sys, Step(sys, e));
    }
  }

  // --- Whole runs ---

  lemma {:induction false} RunKeeps(sys: System, events: seq<Event>)
    requires Good(sys)
    ensures Good(Run(sys, events)) && Grows(sys.db, Run(sys, events).db)
    decreases |events|
  {
    if events != [] {
      StepKeeps(sys, events[0]);
      RunKeeps(Step(sys, events[0]), events[1..]);
      GrowsIsTransitive(sys.db, Step(sys, events[0]).db, Run(sys, events).db);
    }
  }

  /** Every interleaving from the empty store keeps all claims. */
  lemma EveryRunIsGood(events: seq<Event>)
    ensures Good(Run(START, events))
  {
    EmptyIsValid();
    RunKeeps(START, events);
  }

  /** All accepted answers to one key name the same message and sequence; at most one created it. */
  lemma OneMessagePerKey(events: seq<Event>, i: int, j: int)
    requires i in Run(START, events).sends && j in Run(START, events).sends
    requires var a, b := Run(START, events).sends[i], Run(START, events).sends[j];
             a.Answered? && b.Answered? && a.answer.Accepted? && b.answer.Accepted? && a.request.key == b.request.key
    ensures var a, b := Run(START, events).sends[i], Run(START, events).sends[j];
            && a.answer.message.messageId == b.answer.message.messageId
            && a.answer.message.sequence == b.answer.message.sequence
            && a.request.fingerprint == b.request.fingerprint
            && (a.answer.persistence.New? && b.answer.persistence.New? ==> i == j)
  {
    EveryRunIsGood(events);
    var sys := Run(START, events);
    assert Justified(sys.db, sys.sends[i].request, sys.sends[i].answer);
    assert Justified(sys.db, sys.sends[j].request, sys.sends[j].answer);
  }

  /** Among the answers that a receipt decides, conflicts are exactly the requests with another fingerprint. */
  lemma ConflictExactlyOnOtherFingerprint(events: seq<Event>, i: int)
    requires i in Run(START, events).sends && Run(START, events).sends[i].Answered?
    requires var a := Run(START, events).sends[i].answer;
             a.Accepted? || a == Rejected(IdempotencyConflict) || a == Rejected(MessageDeleted)
    ensures var sys := Run(START, events);
            var r := sys.sends[i].request;
            && r.key in sys.db.receipts
            && (sys.sends[i].answer == Rejected(IdempotencyConflict) <==>
                r.fingerprint != sys.db.receipts[r.key].fingerprint)
  {
    EveryRunIsGood(events);
    var sys := Run(START, events);
    assert Justified(sys.db, sys.sends[i].request, sys.sends[i].answer);
  }

  /** A send crashes only on a reused message id: no lifecycle error can be reached. */
  lemma OnlyReusedIdsCrash(events: seq<Event>, i: int)
    requires i in Run(START, events).sends && Run(START, events).sends[i].Answered?
    ensures var a := Run(START, events).sends[i].answer; a.Crashed? ==> a.error == UniqueViolation
  {
    EveryRunIsGood(events);
    var sys := Run(START, events);
    assert Justified(sys.db, sys.sends[i].request, sys.sends[i].answer);
  }

  // --- What each step answers ---

  /** The three answers to a key that is known: conflict, deleted, or the message as it stands. */
  ghost predicate AnswersKnownKey(db: Db, r: Request, a: Answer)
    requires r.key in db.receipts && db.receipts[r.key].resultMessageId in db.messages
  {
    var row := db.messages[db.receipts[r.key].resultMessageId];
    if db.receipts[r.key].fingerprint != r.fingerprint then a == Rejected(IdempotencyConflict)
    else if row.deletedAt.Some? then a == Rejected(MessageDeleted)
    else a.Accepted? && a.persistence.Earlier? && TellsOf(a.message, row)
  }

  /** The first step answers what needs no writing: a text that is none, and a key that is known. */
  lemma LookUpAnswers(sys: System, i: int)
    requires Good(sys) && i in sys.sends && sys.sends[i].Asked?
    ensures var r := sys.sends[i].request;
            var s := Step(sys, LookUp(i)).sends[i];
            if r.text.None? then s == Answered(r, Rejected(InvalidText))
            else if r.key !in sys.db.receipts then s == Missed(r)
            else
              && sys.db.receipts[r.key].resultMessageId in sys.db.messages
              && s.Answered? && s.request == r && AnswersKnownKey(sys.db, r, s.answer)
    ensures Step(sys, LookUp(i)).db == sys.db
  {
    LookupTells(sys.db, sys.sends[i].request.key);
  }

  lemma ClearanceAnswers(sys: System, i: int, clearance: Clearance)
    requires i in sys.sends && sys.sends[i].Missed?
    ensures var r := sys.sends[i].request;
            var s := Step(sys, Clear(i, clearance)).sends[i];
            match clearance
            case Unresolved => s == Answered(r, Rejected(NotResolved))
            case Denied => s == Answered(r, Rejected(WriteForbidden))
            case Allowed(id) => s == Cleared(r, id)
    ensures Step(sys, Clear(i, clearance)).db == sys.db
  {
  }

  /** The transaction stores the text that was asked for, at the time it was given, unless there is a reason not to. */
  lemma StoreAnswersRequest(sys: System, i: int, now: int)
    requires Good(sys) && i in sys.sends && sys.sends[i].Cleared? && sys.sends[i].request.text.Some?
    ensures var r, id := sys.sends[i].request, sys.sends[i].messageId;
            var next := Step(sys, Store(i, now));
            && i in next.sends && next.sends[i].Answered? && next.sends[i].request == r
            && var a := next.sends[i].answer;
            if r.key in sys.db.receipts then
              && next.db == sys.db && sys.db.receipts[r.key].resultMessageId in sys.db.messages
              && AnswersKnownKey(sys.db, r, a)
            else if !TakesMessages(sys.db, r.target) then next.db == sys.db && a == Rejected(UnknownTarget)
            else if id in sys.db.messages then next.db == sys.db && a == Crashed(UniqueViolation)
            else
              && Appends(sys.db, next.db, AppendInput(r.key, id, r.target, r.text.value, r.fingerprint, now),
                         (if r.target in sys.db.streams then sys.db.streams[r.target] else 0) + 1)
              && a.Accepted? && a.persistence.New? && TellsOf(a.message, next.db.messages[id])
  {
    var r := sys.sends[i].request;
    LookupTells(sys.db, r.key);
    AppendAnswers(sys.db, InputOf(r, sys.sends[i].messageId, now));
  }

  /** In every run, a message that stands has the text that the send or the last accepted edit gave it. */
  lemma TextsAreKept(events: seq<Event>, id: MessageId)
    requires var sys := Run(START, events); id in sys.db.messages && sys.db.messages[id].deletedAt.None?
    ensures var sys := Run(START, events);
            id in sys.texts && sys.db.messages[id].content == Some(sys.texts[id])
  {
    EveryRunIsGood(events);
  }

  lemma TombstoneAnswers(db: Db, id: MessageId, actor: string, t: Target, text: string, now: int)
    requires Valid(db) && MayMutate(db, id, actor, t) && db.messages[id].deletedAt.Some?
    ensures Delete(db, id, actor, t, now) == (db, DeletedRow(db.messages[id]))
    ensures Edit(db, id, actor, t, text, now) == (db, DeletedRow(db.messages[id]))
  {
    assert LivesRight(db.messages[id]);
  }

  lemma MayMutateGrows(db: Db, later: Db, id: MessageId, actor: string, t: Target)
    requires Grows(db, later) && MayMutate(db, id, actor, t)
    ensures MayMutate(later, id, actor, t)
    ensures db.messages[id].deletedAt.Some? ==> later.messages[id] == db.messages[id]
  {
    assert RowGrows(db.messages[id], later.messages[id]);
  }

  /** A tombstone answers every later deletion and edit with itself, whatever happens in between. */
  lemma TombstoneStays(sys: System, id: MessageId, actor: string, t: Target, later: seq<Event>, text: string, now: int)
    requires Good(sys) && MayMutate(sys.db, id, actor, t) && sys.db.messages[id].deletedAt.Some?
    ensures var after := Run(sys, later).db;
            && Delete(after, id, actor, t, now) == (after, DeletedRow(sys.db.messages[id]))
            && Edit(after, id, actor, t, text, now) == (after, DeletedRow(sys.db.messages[id]))
  {
    RunKeeps(sys, later);
    MayMutateGrows(sys.db, Run(sys, later).db, id, actor, t);
    TombstoneAnswers(Run(sys, later).db, id, actor, t, text, now);
  }
}
