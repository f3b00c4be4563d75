/** What every transaction keeps: dense sequences, one receipt per message, rooted threads, tombstones. */
module StoreInvariants {
  import opened Messages
  import opened MessageStore

  type Streams = map<Target, Sequence>
  type Rows = map<MessageId, Row>
  type Receipts = map<Key, Receipt>

  ghost predicate InStream(streams: Streams, id: MessageId, row: Row) {
    row.messageId == id && row.target in streams && 1 <= row.sequence <= streams[row.target]
  }

  predicate SamePlace(a: Row, b: Row) {
    a.target == b.target && a.sequence == b.sequence
  }

  /** Every row has a place in its stream, and no two rows share one. */
  ghost predicate Placed(streams: Streams, messages: Rows) {
    && (forall id :: id in messages ==> InStream(streams, id, messages[id]))
    && (forall a, b :: a in messages && b in messages && SamePlace(messages[a], messages[b]) ==> a == b)
  }

  /** No place up to a stream's last one is missing. */
  ghost predicate Full(streams: Streams, messages: Rows) {
    forall t :: t in streams ==>
      0 <= streams[t] && forall s :: 1 <= s <= streams[t] ==> Taken(messages, t, s)
  }

  ghost predicate HasReceipt(receipts: Receipts, id: MessageId) {
    exists k :: k in receipts && receipts[k].resultMessageId == id
  }

  ghost predicate Receives(messages: Rows, k: Key, receipt: Receipt) {
    receipt.resultMessageId in messages && messages[receipt.resultMessageId].senderActorId == k.senderActorId
  }

  predicate SameMessage(a: Receipt, b: Receipt) {
    a.resultMessageId == b.resultMessageId
  }

  /** Receipts and messages correspond one to one, within each sender. */
  ghost predicate Receipted(receipts: Receipts, messages: Rows) {
    && (forall k :: k in receipts ==> Receives(messages, k, receipts[k]))
    && (forall k, l :: k in receipts && l in receipts && SameMessage(receipts[k], receipts[l]) ==> k == l)
    && (forall id :: id in messages ==> HasReceipt(receipts, id))
  }

  /** Content is missing exactly in tombstones; the version counts the changes. */
  ghost predicate LivesRight(row: Row) {
    && (row.content.None? <==> row.deletedAt.Some?)
    && (if row.editedAt.None? && row.deletedAt.None? then row.version == 1 else row.version >= 2)
  }

  ghost predicate AllLiveRight(messages: Rows) {
    forall id :: id in messages ==> LivesRight(messages[id])
  }

  /** Every thread hangs off an existing message of a channel or DM; threads do not nest. */
  ghost predicate Rooted(streams: Streams, messages: Rows) {
    forall t :: t in streams && t.Thread? ==> t.threadId in messages && !messages[t.threadId].target.Thread?
  }

  /** Each stream's rows carry the sequences 1 to its last one, each exactly once. */
  ghost predicate Dense(db: Db) {
    Placed(db.streams, db.messages) && Full(db.streams, db.messages)
  }

  ghost predicate Valid(db: Db) {
    && Dense(db)
    && Receipted(db.receipts, db.messages)
    && AllLiveRight(db.messages)
    && Rooted(db.streams, db.messages)
  }

  /** A row keeps its identity for ever, and a tombstone keeps everything. */
  predicate RowGrows(row: Row, later: Row) {
    && later.messageId == row.messageId && SamePlace(row, later)
    && later.senderActorId == row.senderActorId && later.createdAt == row.createdAt
    && row.version <= later.version
    && (row.deletedAt.Some? ==> later == row)
  }

  ghost predicate StreamsGrow(streams: Streams, later: Streams) {
    forall t :: t in streams ==> t in later && streams[t] <= later[t]
  }

  ghost predicate RowsGrow(messages: Rows, later: Rows) {
    forall id :: id in messages ==> id in later && RowGrows(messages[id], later[id])
  }

  ghost predicate ReceiptsGrow(receipts: Receipts, later: Receipts) {
    forall k :: k in receipts ==> k in later && later[k] == receipts[k]
  }

  /** What no later transaction takes back. */
  ghost predicate Grows(db: Db, later: Db) {
    && StreamsGrow(db.streams, later.streams)
    && RowsGrow(db.messages, later.messages)
    && ReceiptsGrow(db.receipts, later.receipts)
  }

  lemma GrowsIsReflexive(db: Db)
    ensures Grows(db, db)
  {
  }

  lemma GrowsIsTransitive(a: Db, b: Db, c: Db)
    requires Grows(a, b) && Grows(b, c)
    ensures Grows(a, c)
  {
  }

  lemma EmptyIsValid()
    ensures Valid(Db(map[], map[], map[]))
  {
  }

  // --- Appending ---

  /** In a valid store a lookup finds exactly the keys with a receipt, and is never broken. */
  lemma LookupIsExact(db: Db, key: Key)
    requires Valid(db)
    ensures if key in db.receipts then
              && FindReceipt(db, key).Found?
              && FindReceipt(db, key).fingerprint == db.receipts[key].fingerprint
              && (FindReceipt(db, key).message.None? <==> db.messages[db.receipts[key].resultMessageId].deletedAt.Some?)
            else FindReceipt(db, key) == NotFound
  {
    if key in db.receipts {
      var id := db.receipts[key].resultMessageId;
      assert Receives(db.messages, key, db.receipts[key]);
      assert InStream(db.streams, id, db.messages[id]) && LivesRight(db.messages[id]);
    }
  }

  /** The sequence that the next message of a target gets. */
  function NextSequence(db: Db, t: Target): Sequence {
    (if t in db.streams then db.streams[t] else 0) + 1
  }

  lemma EnsureKeeps(db: Db, t: Target)
    requires Valid(db) && Ensure(db, t).Some?
    ensures var ensured := Ensure(db, t).value;
            && Valid(ensured) && Grows(db, ensured) && ensured.(streams := db.streams) == db
            && t in ensured.streams && ensured.streams[t] + 1 == NextSequence(db, t)
  {
    var ensured := Ensure(db, t).value;
    if t !in db.streams {
      NewStreamKeeps(db.streams, db.messages, t);
      assert RowsGrow(db.messages, ensured.messages);
    }
  }

  lemma NewStreamKeeps(streams: Streams, messages: Rows, t: Target)
    requires Placed(streams, messages) && Full(streams, messages) && t !in streams
    ensures Placed(streams[t := 0], messages) && Full(streams[t := 0], messages)
            && StreamsGrow(streams, streams[t := 0])
  {
    forall id | id in messages ensures InStream(streams[t := 0], id, messages[id]) {
      assert InStream(streams, id, messages[id]);
    }
  }

  lemma NewRowIsPlaced(streams: Streams, messages: Rows, row: Row)
    requires Placed(streams, messages) && row.target in streams && 0 <= streams[row.target]
    requires row.messageId !in messages && row.sequence == streams[row.target] + 1
    ensures Placed(streams[row.target := row.sequence], messages[row.messageId := row])
  {
    forall id | id in messages
      ensures InStream(streams[row.target := row.sequence], id, messages[id]) && !SamePlace(messages[id], row)
    {
      assert InStream(streams, id, messages[id]);
    }
  }

  lemma NewRowFills(streams: Streams, messages: Rows, row: Row)
    requires Full(streams, messages) && row.target in streams
    requires row.messageId !in messages && row.sequence == streams[row.target] + 1
    ensures Full(streams[row.target := row.sequence], messages[row.messageId := row])
  {
    var after := messages[row.messageId := row];
    forall t, s | t in streams && 1 <= s <= streams[row.target := row.sequence][t] ensures Taken(after, t, s) {
      if t == row.target && s == row.sequence {
        assert after[row.messageId].sequence == s;
      } else {
        assert Taken(messages, t, s);
        var id :| id in messages && messages[id].target == t && messages[id].sequence == s;
        assert after[id] == messages[id];
      }
    }
  }

  lemma NewReceiptKeeps(receipts: Receipts, messages: Rows, key: Key, receipt: Receipt, row: Row)
    requires Receipted(receipts, messages) && key !in receipts && row.messageId !in messages
    requires receipt.resultMessageId == row.messageId && row.senderActorId == key.senderActorId
    ensures Receipted(receipts[key := receipt], messages[row.messageId := row])
  {
    var receiptsAfter, after := receipts[key := receipt], messages[row.messageId := row];
    forall k | k in receipts
      ensures Receives(after, k, receiptsAfter[k]) && !SameMessage(receipts[k], receipt)
    {
      assert Receives(messages, k, receipts[k]);
    }
    forall id | id in after ensures HasReceipt(receiptsAfter, id) {
      if id == row.messageId {
        assert receiptsAfter[key].resultMessageId == id;
      } else {
        assert HasReceipt(receipts, id);
        var k :| k in receipts && receipts[k].resultMessageId == id;
        assert receiptsAfter[k].resultMessageId == id;
      }
    }
  }

  lemma NewRowLives(streams: Streams, messages: Rows, row: Row)
    requires AllLiveRight(messages) && Rooted(streams, messages) && row.messageId !in messages
    requires LivesRight(row) && row.target in streams
    ensures AllLiveRight(messages[row.messageId := row])
    ensures Rooted(streams[row.target := row.sequence], messages[row.messageId := row])
  {
  }

  lemma NewRowGrows(db: Db, key: Key, fingerprint: Fingerprint, row: Row)
    requires row.messageId !in db.messages && key !in db.receipts
    requires row.target in db.streams && db.streams[row.target] <= row.sequence
    ensures Grows(db, Insert(db, key, fingerprint, row))
  {
  }

  lemma InsertKeeps(db: Db, key: Key, fingerprint: Fingerprint, row: Row)
    requires Valid(db) && row.messageId !in db.messages && key !in db.receipts
    requires row.target in db.streams && row.sequence == db.streams[row.target] + 1
    requires LivesRight(row) && row.senderActorId == key.senderActorId
    ensures Valid(Insert(db, key, fingerprint, row)) && Grows(db, Insert(db, key, fingerprint, row))
  {
    NewRowIsPlaced(db.streams, db.messages, row);
    NewRowFills(db.streams, db.messages, row);
    NewReceiptKeeps(db.receipts, db.messages, key, Receipt(fingerprint, row.messageId), row);
    NewRowLives(db.streams, db.messages, row);
    NewRowGrows(db, key, fingerprint, row);
  }

  /** The next place of a stream is always free. */
  lemma NextPlaceIsFree(streams: Streams, messages: Rows, t: Target)
    requires Placed(streams, messages) && t in streams
    ensures !Taken(messages, t, streams[t] + 1)
  {
    assert forall id :: id in messages ==> InStream(streams, id, messages[id]);
  }

  /** A new key with a target and a fresh message id is stored right after the last message. */
  lemma AppendCreates(db: Db, input: AppendInput)
    requires Valid(db) && input.key !in db.receipts && Ensure(db, input.target).Some?
    ensures if input.messageId in db.messages then Append(db, input) == (db, AppendFailed(UniqueViolation))
            else
              var row := NewRow(input, NextSequence(db, input.target));
              var after := Insert(Ensure(db, input.target).value, input.key, input.fingerprint, row);
              && Append(db, input) == (after, Created(Appended(row, input.text)))
              && Valid(after) && Grows(db, after)
  {
    var ensured := Ensure(db, input.target).value;
    LookupIsExact(db, input.key);
    EnsureKeeps(db, input.target);
    NextPlaceIsFree(ensured.streams, ensured.messages, input.target);
    if input.messageId !in db.messages {
      var row := NewRow(input, NextSequence(db, input.target));
      InsertKeeps(ensured, input.key, input.fingerprint, row);
      GrowsIsTransitive(db, ensured, Insert(ensured, input.key, input.fingerprint, row));
    }
  }

  /**
   * Appending keeps the store valid, whatever it answers. It is never broken, fails exactly on a
   * reused message id, and a created message takes the place right after the last one.
   */
  lemma AppendKeeps(db: Db, input: AppendInput)
    requires Valid(db)
    ensures var (after, r) := Append(db, input);
            && Valid(after) && Grows(db, after)
            && (r.Existing? <==> input.key in db.receipts)
            && (r.TargetNotFound? <==> input.key !in db.receipts && Ensure(db, input.target).None?)
            && (r.AppendFailed? <==>
                  input.key !in db.receipts && Ensure(db, input.target).Some? && input.messageId in db.messages)
            && (r.AppendFailed? ==> r.error == UniqueViolation)
            && (!r.Created? ==> after == db)
            && (r.Created? ==>
                  && after.receipts == db.receipts[input.key := Receipt(input.fingerprint, input.messageId)]
                  && r.message.messageId == input.messageId && input.messageId !in db.messages
                  && after.messages == db.messages[input.messageId := NewRow(input, r.message.sequence)]
                  && r.message.sequence == NextSequence(db, input.target))
  {
    LookupIsExact(db, input.key);
    if input.key !in db.receipts && Ensure(db, input.target).Some? {
      AppendCreates(db, input);
      EnsureKeeps(db, input.target);
    }
  }

  // --- Editing and deleting ---

  ghost predicate ReplacesRow(db: Db, after: Db, id: MessageId) {
    && id in db.messages
    && after.streams == db.streams && after.receipts == db.receipts
    && id in after.messages && after.messages == db.messages[id := after.messages[id]]
    && RowGrows(db.messages[id], after.messages[id]) && LivesRight(after.messages[id])
  }

  lemma ReplacedRowKeepsPlaces(streams: Streams, messages: Rows, id: MessageId, row: Row)
    requires Placed(streams, messages) && Full(streams, messages) && id in messages && RowGrows(messages[id], row)
    ensures Placed(streams, messages[id := row]) && Full(streams, messages[id := row])
  {
    var after := messages[id := row];
    forall other | other in after ensures InStream(streams, other, after[other]) {
      assert InStream(streams, other, messages[other]);
    }
    forall a, b | a in after && b in after && SamePlace(after[a], after[b]) ensures a == b {
      assert SamePlace(messages[a], messages[b]);
    }
    forall t, s | t in streams && 1 <= s <= streams[t] ensures Taken(after, t, s) {
      assert Taken(messages, t, s);
      var other :| other in messages && messages[other].target == t && messages[other].sequence == s;
      assert after[other].target == t && after[other].sequence == s;
    }
  }

  lemma ReplacedRowKeepsReceipts(receipts: Receipts, messages: Rows, id: MessageId, row: Row)
    requires Receipted(receipts, messages) && id in messages && RowGrows(messages[id], row)
    ensures Receipted(receipts, messages[id := row])
  {
    forall k | k in receipts ensures Receives(messages[id := row], k, receipts[k]) {
      assert Receives(messages, k, receipts[k]);
    }
  }

  lemma ReplaceRowKeeps(db: Db, after: Db, id: MessageId)
    requires Valid(db) && ReplacesRow(db, after, id)
    ensures Valid(after) && Grows(db, after)
  {
    ReplacedRowKeepsPlaces(db.streams, db.messages, id, after.messages[id]);
    ReplacedRowKeepsReceipts(db.receipts, db.messages, id, after.messages[id]);
    assert AllLiveRight(after.messages);
    assert Rooted(after.streams, after.messages);
  }

  /** Editing keeps the store valid and is never broken; it changes nothing but a live message of the actor. */
  lemma EditKeeps(db: Db, id: MessageId, actor: string, t: Target, text: string, now: int)
    requires Valid(db)
    ensures var (after, r) := Edit(db, id, actor, t, text, now);
            && Valid(after) && Grows(db, after) && !r.MutationFailed?
            && (r.EditedRow? ==>
                  && ReplacesRow(db, after, id) && r.row == after.messages[id]
                  && r.row.content == Some(text) && r.row.version == db.messages[id].version + 1)
            && (!r.EditedRow? ==> after == db)
            && (r.DeletedRow? ==> id in db.messages && r.tombstone == db.messages[id] && r.tombstone.deletedAt.Some?)
            && (r.Forbidden? <==> !MayMutate(db, id, actor, t))
  {
    var (after, r) := Edit(db, id, actor, t, text, now);
    if r.EditedRow? {
      ReplaceRowKeeps(db, after, id);
    } else if id in db.messages {
      assert LivesRight(db.messages[id]);
    }
  }

  /** Deleting keeps the store valid and is never broken; afterwards the message is a tombstone. */
  lemma DeleteKeeps(db: Db, id: MessageId, actor: string, t: Target, now: int)
    requires Valid(db)
    ensures var (after, r) := Delete(db, id, actor, t, now);
            && Valid(after) && Grows(db, after) && !r.MutationFailed? && !r.EditedRow?
            && (r.Forbidden? <==> !MayMutate(db, id, actor, t))
            && (r.Forbidden? ==> after == db)
            && (r.DeletedRow? ==>
                  && id in after.messages && r.tombstone == after.messages[id] && r.tombstone.deletedAt.Some?
                  && (after == db || ReplacesRow(db, after, id))
                  && r.tombstone.version
                     == db.messages[id].version + (if db.messages[id].deletedAt.Some? then 0 else 1))
  {
    var (after, r) := Delete(db, id, actor, t, now);
    if id in db.messages {
      assert LivesRight(db.messages[id]);
    }
    if after != db {
      ReplaceRowKeeps(db, after, id);
    }
  }
}
