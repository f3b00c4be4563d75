/** The message tables as they are kept, updated in place by the transactions. */
module MessageTables {
  import opened Messages
  import opened MessageStore
  import Store = StoreInvariants
  import opened StoreInvariants

  /** No row comes or goes, and none but one changes. */
  ghost predicate OnlyChanges(before: Rows, after: Rows, id: MessageId) {
    after.Keys == before.Keys && forall other :: other in before && other != id ==> after[other] == before[other]
  }

  class Tables {
    var streams: map<Target, Sequence>
    var messages: map<MessageId, Row>
    var receipts: map<Key, Receipt>

    function Contents(): Db
      reads this
    {
      Db(streams, messages, receipts)
    }

    /** Holds between any two transactions. */
    ghost predicate Valid()
      reads this
    {
      Store.Valid(Contents())
    }

    constructor ()
      ensures Valid() && Contents() == Db(map[], map[], map[])
    {
      streams, messages, receipts := map[], map[], map[];
      new;
      EmptyIsValid();
    }

    method EnsureMessageStream(t: Target) returns (ok: bool)
      modifies this`streams
      ensures match Ensure(old(Contents()), t)
              case None => !ok && Contents() == old(Contents())
              case Some(db) => ok && Contents() == db && t in streams
      ensures old(Valid()) ==> Valid() && Grows(old(Contents()), Contents())
    {
      if old(Valid()) && Ensure(Contents(), t).Some? {
        EnsureKeeps(Contents(), t);
      } else {
        GrowsIsReflexive(Contents());
      }
      if t.Thread? {
        ok := EnsureThreadMessageStream(t.threadId);
        return;
      }
      if t !in streams {
        streams := streams[t := 0];
      }
      return true;
    }

    method EnsureThreadMessageStream(root: MessageId) returns (ok: bool)
      modifies this`streams
      ensures match Ensure(old(Contents()), Thread(root))
              case None => !ok && Contents() == old(Contents())
              case Some(db) => ok && Contents() == db && Thread(root) in streams
    {
      if root !in messages || messages[root].target !in streams || messages[root].target.Thread? {
        return false;
      }
      if Thread(root) in streams {
        return true;
      }
      if messages[root].deletedAt.Some? {
        return false;
      }
      streams := streams[Thread(root) := 0];
      return true;
    }

    /** The place handed out is free, and no other stream moves. */
    method AdvanceSequence(t: Target) returns (s: Sequence)
      requires t in streams
      modifies this`streams
      ensures s == old(streams)[t] + 1 && streams == old(streams)[t := s]
      ensures Placed(old(streams), messages) ==> !Taken(messages, t, s)
    {
      if Placed(streams, messages) {
        NextPlaceIsFree(streams, messages, t);
      }
      s := streams[t] + 1;
      streams := streams[t := s];
    }

    /** The unique constraints of the messages table. */
    method IsFree(id: MessageId, t: Target, s: Sequence) returns (free: bool)
      ensures free <==> id !in messages && !Taken(messages, t, s)
    {
      free := id !in messages
              && forall other | other in messages :: messages[other].target != t || messages[other].sequence != s;
    }

    /** Rolls back to the tables as they were when a constraint is violated on the way. */
    method AppendInTransaction(input: AppendInput) returns (r: AppendResult)
      modifies this
      ensures Append(old(Contents()), input) == (Contents(), r)
    {
      var streamsBefore := streams;
      var existing := FindReceipt(Contents(), input.key);
      if existing.Broken? {
        return AppendFailed(existing.error);
      }
      if existing.Found? {
        return Existing(existing);
      }
      var ok := EnsureMessageStream(input.target);
      if !ok {
        return TargetNotFound;
      }
      ghost var ensured := Contents();
      var s := AdvanceSequence(input.target);
      var free := IsFree(input.messageId, input.target, s);
      if !free || input.key in receipts {
        streams := streamsBefore;
        return AppendFailed(UniqueViolation);
      }
      var row := NewRow(input, s);
      messages := messages[row.messageId := row];
      receipts := receipts[input.key := Receipt(input.fingerprint, row.messageId)];
      assert Contents() == Insert(ensured, input.key, input.fingerprint, row);
      return Created(Appended(row, input.text));
    }

    method EditInTransaction(id: MessageId, actor: string, t: Target, text: string, now: int)
        returns (r: MutationResult)
      modifies this`messages
      ensures Edit(old(Contents()), id, actor, t, text, now) == (Contents(), r)
    {
      if id !in messages || messages[id].target !in streams || messages[id].senderActorId != actor
          || messages[id].target != t {
        return Forbidden;
      }
      var current := messages[id];
      if current.deletedAt.Some? {
        return AsTombstone(current);
      }
      if current.content.None? {
        return MutationFailed(LifecycleError);
      }
      var updated := current.(content := Some(text), version := current.version + 1, editedAt := Some(now));
      messages := messages[id := updated];
      return EditedRow(updated);
    }

    method DeleteInTransaction(id: MessageId, actor: string, t: Target, now: int) returns (r: MutationResult)
      modifies this`messages
      ensures Delete(old(Contents()), id, actor, t, now) == (Contents(), r)
    {
      if id !in messages || messages[id].target !in streams || messages[id].senderActorId != actor
          || messages[id].target != t {
        return Forbidden;
      }
      var current := messages[id];
      if current.deletedAt.Some? {
        return AsTombstone(current);
      }
      if current.content.None? {
        return MutationFailed(LifecycleError);
      }
      var deleted := current.(content := None, version := current.version + 1, deletedAt := Some(now));
      messages := messages[id := deleted];
      return DeletedRow(deleted);
    }

    // --- The transactions, from one valid state to the next ---

    /** Whatever it answers, nothing stored before is taken back; only a reused id can make it fail. */
    method AppendTextMessage(input: AppendInput) returns (r: AppendResult)
      modifies this
      ensures Append(old(Contents()), input) == (Contents(), r)
      ensures old(Valid()) ==>
                Valid() && Grows(old(Contents()), Contents()) && (r.AppendFailed? ==> r.error == UniqueViolation)
    {
      ghost var db := Contents();
      r := AppendInTransaction(input);
      if Store.Valid(db) {
        AppendKeeps(db, input);
      }
    }

    /** No other row changes, nor any stream or receipt; a valid store stays valid, and the edit cannot fail. */
    method EditOwnMessage(id: MessageId, actor: string, t: Target, text: string, now: int) returns (r: MutationResult)
      modifies this`messages
      ensures Edit(old(Contents()), id, actor, t, text, now) == (Contents(), r)
      ensures OnlyChanges(old(messages), messages, id) && (!r.EditedRow? ==> messages == old(messages))
      ensures old(Valid()) ==> Valid() && Grows(old(Contents()), Contents()) && !r.MutationFailed?
    {
      ghost var db := Contents();
      r := EditInTransaction(id, actor, t, text, now);
      if Store.Valid(db) {
        EditKeeps(db, id, actor, t, text, now);
      }
    }

    /** No other row changes, nor any stream or receipt; the tombstone returned is the one that stays. */
    method DeleteOwnMessage(id: MessageId, actor: string, t: Target, now: int) returns (r: MutationResult)
      modifies this`messages
      ensures Delete(old(Contents()), id, actor, t, now) == (Contents(), r)
      ensures OnlyChanges(old(messages), messages, id)
      ensures r.DeletedRow? ==> id in messages && messages[id] == r.tombstone
      ensures old(Valid()) ==>
                && Valid() && Grows(old(Contents()), Contents()) && !r.MutationFailed?
                && (r.DeletedRow? ==> r.tombstone.deletedAt.Some?)
    {
      ghost var db := Contents();
      r := DeleteInTransaction(id, actor, t, now);
      if Store.Valid(db) {
        DeleteKeeps(db, id, actor, t, now);
      }
    }
  }
}
