/** What each transaction answers and writes, told from its input and the store before it, field by field. */
module StoreAnswers {
  import opened Messages
  import opened MessageStore
  import opened StoreInvariants

  // --- Appending ---

  /**
   * A channel or DM takes any message; a thread takes one if its root is a message outside threads that
   * still stands.
   */
  predicate TakesMessages(db: Db, t: Target) {
    t.Thread? ==>
      && t.threadId in db.messages && !db.messages[t.threadId].target.Thread?
      && (t in db.streams || db.messages[t.threadId].deletedAt.None?)
  }

  lemma EnsureExactly(db: Db, t: Target)
    requires Valid(db)
    ensures Ensure(db, t).Some? <==> TakesMessages(db, t)
    ensures Ensure(db, t).Some? ==>
              && Ensure(db, t).value.messages == db.messages && Ensure(db, t).value.receipts == db.receipts
              && Ensure(db, t).value.streams == if t in db.streams then db.streams else db.streams[t := 0]
  {
    if t.Thread? && t.threadId in db.messages {
      assert InStream(db.streams, t.threadId, db.messages[t.threadId]);
    }
  }

  /** What a lookup tells of a stored message. */
  predicate TellsOf(m: AppendedMessage, row: Row) {
    && m.messageId == row.messageId && m.target == row.target && m.sequence == row.sequence
    && m.senderActorId == row.senderActorId && m.createdAt == row.createdAt && row.content == Some(m.text)
  }

  /** A key with a receipt: its fingerprint, and its message as it stands, unless that is deleted. */
  lemma LookupTells(db: Db, key: Key)
    requires Valid(db)
    ensures var found := FindReceipt(db, key);
            if key !in db.receipts then found == NotFound
            else
              var id := db.receipts[key].resultMessageId;
              && id in db.messages && found.Found? && found.fingerprint == db.receipts[key].fingerprint
              && (if db.messages[id].deletedAt.Some? then found.message == None
                  else found.message.Some? && TellsOf(found.message.value, db.messages[id]))
  {
    LookupIsExact(db, key);
    if key in db.receipts {
      var id := db.receipts[key].resultMessageId;
      assert Receives(db.messages, key, db.receipts[key]);
      assert InStream(db.streams, id, db.messages[id]) && LivesRight(db.messages[id]);
    }
  }

  /**
   * The row is the message that was sent: text, sender, target and time, at its place, and nothing has
   * happened to it.
   */
  predicate IsAsSent(row: Row, input: AppendInput, s: Sequence) {
    && row.messageId == input.messageId && row.target == input.target && row.sequence == s
    && row.senderActorId == input.key.senderActorId && row.content == Some(input.text)
    && row.createdAt == input.now && row.editedAt == None && row.deletedAt == None && row.version == 1
  }

  /** What a transaction for a new key leaves behind: one more row, one more receipt, one stream a place longer. */
  ghost predicate Appends(db: Db, after: Db, input: AppendInput, s: Sequence) {
    && after.streams == db.streams[input.target := s]
    && after.receipts == db.receipts[input.key := Receipt(input.fingerprint, input.messageId)]
    && input.messageId in after.messages && IsAsSent(after.messages[input.messageId], input, s)
    && after.messages == db.messages[input.messageId := after.messages[input.messageId]]
  }

  lemma InsertAppends(db: Db, ensured: Db, input: AppendInput, s: Sequence)
    requires ensured.messages == db.messages && ensured.receipts == db.receipts
    requires ensured.streams == if input.target in db.streams then db.streams else db.streams[input.target := 0]
    ensures Appends(db, Insert(ensured, input.key, input.fingerprint, NewRow(input, s)), input, s)
    ensures TellsOf(Appended(NewRow(input, s), input.text), NewRow(input, s))
  {
  }

  lemma NewKeyIsStored(db: Db, input: AppendInput)
    requires Valid(db) && input.key !in db.receipts
    requires TakesMessages(db, input.target) && input.messageId !in db.messages
    ensures var (after, r) := Append(db, input);
            && Appends(db, after, input, (if input.target in db.streams then db.streams[input.target] else 0) + 1)
            && r.Created? && TellsOf(r.message, after.messages[input.messageId]) && r.message.text == input.text
  {
    EnsureExactly(db, input.target);
    AppendCreates(db, input);
    InsertAppends(db, Ensure(db, input.target).value, input, NextSequence(db, input.target));
  }

  lemma KnownKeyIsFound(db: Db, input: AppendInput)
    requires Valid(db) && input.key in db.receipts
    ensures Append(db, input) == (db, Existing(FindReceipt(db, input.key)))
  {
    LookupIsExact(db, input.key);
  }

  lemma OtherKeysFail(db: Db, input: AppendInput)
    requires Valid(db) && input.key !in db.receipts
    ensures !TakesMessages(db, input.target) ==> Append(db, input) == (db, TargetNotFound)
    ensures TakesMessages(db, input.target) && input.messageId in db.messages ==>
              Append(db, input) == (db, AppendFailed(UniqueViolation))
  {
    LookupIsExact(db, input.key);
    EnsureExactly(db, input.target);
  }

  /**
   * The answer of the transaction is decided by its key, its target and its id, in this order; a
   * created message is stored as it was sent, and the answer repeats it.
   */
  lemma AppendAnswers(db: Db, input: AppendInput)
    requires Valid(db)
    ensures var (after, r) := Append(db, input);
            var s := (if input.target in db.streams then db.streams[input.target] else 0) + 1;
            if input.key in db.receipts then after == db && r == Existing(FindReceipt(db, input.key))
            else if !TakesMessages(db, input.target) then after == db && r == TargetNotFound
            else if input.messageId in db.messages then after == db && r == AppendFailed(UniqueViolation)
            else
              && Appends(db, after, input, s)
              && r.Created? && TellsOf(r.message, after.messages[input.messageId]) && r.message.text == input.text
  {
    if input.key in db.receipts {
      KnownKeyIsFound(db, input);
    } else if !TakesMessages(db, input.target) || input.messageId in db.messages {
      OtherKeysFail(db, input);
    } else {
      NewKeyIsStored(db, input);
    }
  }

  // --- Editing and deleting ---

  /** Nobody but the sender, and only where the message is. */
  predicate IsOwnMessage(db: Db, id: MessageId, actor: string, t: Target) {
    id in db.messages && db.messages[id].senderActorId == actor && db.messages[id].target == t
  }

  /** Only this row has changed, and it is the same message at the same place by the same sender. */
  ghost predicate ChangesOnly(db: Db, after: Db, id: MessageId) {
    && after.streams == db.streams && after.receipts == db.receipts
    && id in db.messages && id in after.messages && after.messages == db.messages[id := after.messages[id]]
    && var row, later := db.messages[id], after.messages[id];
    && later.messageId == row.messageId && later.target == row.target && later.sequence == row.sequence
    && later.senderActorId == row.senderActorId && later.createdAt == row.createdAt && later.version == row.version + 1
  }

  /** An edit gives a live message of the actor its text and time; a tombstone is answered with itself. */
  lemma EditAnswers(db: Db, id: MessageId, actor: string, t: Target, text: string, now: int)
    requires Valid(db)
    ensures var (after, r) := Edit(db, id, actor, t, text, now);
            if !IsOwnMessage(db, id, actor, t) then after == db && r == Forbidden
            else if db.messages[id].deletedAt.Some? then after == db && r == DeletedRow(db.messages[id])
            else
              && ChangesOnly(db, after, id) && r == EditedRow(after.messages[id])
              && after.messages[id].content == Some(text) && after.messages[id].editedAt == Some(now)
              && after.messages[id].deletedAt == None
  {
    EditKeeps(db, id, actor, t, text, now);
    if id in db.messages {
      assert InStream(db.streams, id, db.messages[id]) && LivesRight(db.messages[id]);
    }
  }

  /**
   * A deletion takes the content of a live message of the actor; its edit time stays, and so does an
   * earlier tombstone.
   */
  lemma DeleteAnswers(db: Db, id: MessageId, actor: string, t: Target, now: int)
    requires Valid(db)
    ensures var (after, r) := Delete(db, id, actor, t, now);
            if !IsOwnMessage(db, id, actor, t) then after == db && r == Forbidden
            else if db.messages[id].deletedAt.Some? then after == db && r == DeletedRow(db.messages[id])
            else
              && ChangesOnly(db, after, id) && r == DeletedRow(after.messages[id])
              && after.messages[id].content == None && after.messages[id].deletedAt == Some(now)
              && after.messages[id].editedAt == db.messages[id].editedAt
  {
    DeleteKeeps(db, id, actor, t, now);
    if id in db.messages {
      assert InStream(db.streams, id, db.messages[id]) && LivesRight(db.messages[id]);
    }
  }
}
