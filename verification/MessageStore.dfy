/** The message tables as values, and the transactions that write them. */
module MessageStore {
  import opened Messages

  datatype Fingerprint = Fingerprint(digest: string)

  /** Idempotency keys are scoped to their sender. */
  datatype Key = Key(senderActorId: string, idempotencyKey: string)

  datatype Row = Row(
    messageId: MessageId,
    target: Target,
    sequence: Sequence,
    senderActorId: string,
    version: int,
    content: Option<string>,
    createdAt: int,
    editedAt: Option<int>,
    deletedAt: Option<int>)

  datatype Receipt = Receipt(fingerprint: Fingerprint, resultMessageId: MessageId)

  /**
   * Streams hold the last sequence handed out. They are found by target: the stream id is
   * generated from the target and determines it (Messages.CanonicalStreamIdIsInjective).
   */
  datatype Db = Db(
    streams: map<Target, Sequence>,
    messages: map<MessageId, Row>,
    receipts: map<Key, Receipt>)

  datatype AppendedMessage = AppendedMessage(
    messageId: MessageId, target: Target, sequence: Sequence, senderActorId: string, text: string, createdAt: int)

  datatype StoreError = LifecycleError | UniqueViolation

  /** What a lookup of a key finds; the message is missing once it is deleted. */
  datatype Lookup =
    | NotFound
    | Found(fingerprint: Fingerprint, message: Option<AppendedMessage>)
    | Broken(error: StoreError)

  datatype AppendInput = AppendInput(
    key: Key, messageId: MessageId, target: Target, text: string, fingerprint: Fingerprint, now: int)

  datatype AppendResult =
    | Created(message: AppendedMessage)
    | Existing(lookup: Lookup)
    | TargetNotFound
    | AppendFailed(error: StoreError)

  // --- Reading ---

  function Appended(row: Row, text: string): AppendedMessage {
    AppendedMessage(row.messageId, row.target, row.sequence, row.senderActorId, text, row.createdAt)
  }

  /** The receipt joined with its message and that message's stream. */
  function FindReceipt(db: Db, key: Key): Lookup {
    if key !in db.receipts || db.receipts[key].resultMessageId !in db.messages then NotFound
    else
      var receipt := db.receipts[key];
      var row := db.messages[receipt.resultMessageId];
      if row.target !in db.streams then NotFound
      else if row.content.None? && row.deletedAt.Some? then Found(receipt.fingerprint, None)
      else if row.content.None? || row.deletedAt.Some? then Broken(LifecycleError)
      else Found(receipt.fingerprint, Some(Appended(row, row.content.value)))
  }

  /** Is a place in a stream occupied? */
  ghost predicate Taken(messages: map<MessageId, Row>, t: Target, s: Sequence) {
    exists id :: id in messages && messages[id].target == t && messages[id].sequence == s
  }

  // --- Appending, on values ---

  /** May this target get a stream, and does it have one already? */
  function Ensure(db: Db, t: Target): Option<Db> {
    if t in db.streams && !t.Thread? then Some(db)
    else if !t.Thread? then Some(db.(streams := db.streams[t := 0]))
    else if t.threadId !in db.messages || db.messages[t.threadId].target !in db.streams
            || db.messages[t.threadId].target.Thread? then None
    else if t in db.streams then Some(db)
    else if db.messages[t.threadId].deletedAt.Some? then None
    else Some(db.(streams := db.streams[t := 0]))
  }

  function NewRow(input: AppendInput, s: Sequence): Row {
    Row(input.messageId, input.target, s, input.key.senderActorId, 1, Some(input.text), input.now, None, None)
  }

  /** Advances the stream and stores the row with its receipt. */
  function Insert(db: Db, key: Key, fingerprint: Fingerprint, row: Row): Db {
    Db(db.streams[row.target := row.sequence],
       db.messages[row.messageId := row],
       db.receipts[key := Receipt(fingerprint, row.messageId)])
  }

  /** The whole transaction; a failure leaves no trace. */
  ghost function Append(db: Db, input: AppendInput): (Db, AppendResult) {
    var existing := FindReceipt(db, input.key);
    if existing.Broken? then (db, AppendFailed(existing.error))
    else if existing.Found? then (db, Existing(existing))
    else match Ensure(db, input.target)
      case None => (db, TargetNotFound)
      case Some(ensured) =>
        var s := ensured.streams[input.target] + 1;
        if input.messageId in db.messages || Taken(db.messages, input.target, s) || input.key in db.receipts
        then (db, AppendFailed(UniqueViolation))
        else
          var row := NewRow(input, s);
          (Insert(ensured, input.key, input.fingerprint, row), Created(Appended(row, input.text)))
  }

  // --- Editing and deleting, on values ---

  datatype MutationResult =
    | Forbidden
    | EditedRow(row: Row)
    | DeletedRow(tombstone: Row)
    | MutationFailed(error: StoreError)

  predicate MayMutate(db: Db, id: MessageId, actor: string, t: Target) {
    id in db.messages && db.messages[id].target in db.streams
    && db.messages[id].senderActorId == actor && db.messages[id].target == t
  }

  /** A tombstone is returned as it is, unless it is not one. */
  function AsTombstone(row: Row): MutationResult {
    if row.content.Some? || row.deletedAt.None? then MutationFailed(LifecycleError) else DeletedRow(row)
  }

  function Edit(db: Db, id: MessageId, actor: string, t: Target, text: string, now: int): (Db, MutationResult) {
    if !MayMutate(db, id, actor, t) then (db, Forbidden)
    else
      var row := db.messages[id];
      if row.deletedAt.Some? then (db, AsTombstone(row))
      else if row.content.None? then (db, MutationFailed(LifecycleError))
      else
        var edited := row.(content := Some(text), version := row.version + 1, editedAt := Some(now));
        (db.(messages := db.messages[id := edited]), EditedRow(edited))
  }

  function Delete(db: Db, id: MessageId, actor: string, t: Target, now: int): (Db, MutationResult) {
    if !MayMutate(db, id, actor, t) then (db, Forbidden)
    else
      var row := db.messages[id];
      if row.deletedAt.Some? then (db, AsTombstone(row))
      else if row.content.None? then (db, MutationFailed(LifecycleError))
      else
        var deleted := row.(content := None, version := row.version + 1, deletedAt := Some(now));
        (db.(messages := db.messages[id := deleted]), DeletedRow(deleted))
  }
}
