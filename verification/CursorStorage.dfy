/** Where a session keeps its cursor between page loads. */
module CursorStorage {
  import opened Messages

  datatype StoredState = IdleState | PendingState

  datatype StoredCursor = StoredCursor(deliverySyncCursor: Sequence, throughSequence: Option<Sequence>,
                                       recoveryState: StoredState)

  /** What the key-value store holds under the session's key: anything at all may have been written there. */
  datatype Item = Unreadable | Readable(cursor: StoredCursor)

  predicate IsStoredCursor(c: StoredCursor) {
    && 0 <= c.deliverySyncCursor <= MAX_SAFE_INTEGER
    && (c.throughSequence.Some? ==> c.deliverySyncCursor <= c.throughSequence.value <= MAX_SAFE_INTEGER)
  }

  class StreamMessagesCursorStorage {
    var item: Option<Item>

    constructor (item: Option<Item>)
      ensures this.item == item
    {
      this.item := item;
    }

    method Clear()
      modifies this
      ensures item == None
    {
      item := None;
    }

    /** Only valid cursors come out; anything else is removed. */
    method Load() returns (c: Option<StoredCursor>)
      modifies this
      ensures c.Some? <==> old(item).Some? && old(item).value.Readable? && IsStoredCursor(old(item).value.cursor)
      ensures c.Some? ==> item == old(item) == Some(Readable(c.value))
      ensures c.None? ==> item == None
    {
      if item.None? {
        return None;
      }
      if item.value.Unreadable? || !IsStoredCursor(item.value.cursor) {
        item := None;
        return None;
      }
      return Some(item.value.cursor);
    }

    /** Refuses a cursor beyond its watermark, or a number that is negative or unsafe, and keeps what it had. */
    method Save(c: StoredCursor) returns (ok: bool)
      modifies this
      ensures ok <==> IsStoredCursor(c)
      ensures ok <==> var last := if c.throughSequence.Some? then c.throughSequence.value else c.deliverySyncCursor;
                      0 <= c.deliverySyncCursor <= last < 0x20_0000_0000_0000
      ensures item == if ok then Some(Readable(c)) else old(item)
    {
      if !IsStoredCursor(c) {
        return false;
      }
      item := Some(Readable(c));
      return true;
    }
  }
}
