/** The read transactions behind the pages: one snapshot, a query, and a check for gaps. */
module StreamReaders {
  import opened Messages
  import opened MessageStore
  import opened StoreInvariants

  const MAX_LATEST_MESSAGES_QUERY_COUNT := 5
  const MAX_STREAM_MESSAGES_QUERY_PAGE_SIZE := 100

  datatype ReadError = SequenceGap | InvalidStorageRow | InvalidThreadOrigin

  /** The rows of a page and the watermark they were read under. */
  datatype ReadResult =
    | Read(rows: seq<Row>, throughSequence: Sequence)
    | InvalidCursor
    | ReadFailed(error: ReadError)

  // --- What the queries select ---

  ghost function RowAt(db: Db, t: Target, s: Sequence): Row
    requires Taken(db.messages, t, s)
  {
    var id :| id in db.messages && db.messages[id].target == t && db.messages[id].sequence == s;
    db.messages[id]
  }

  /** The rows of a stream with `lo < sequence <= hi`, ascending. */
  ghost function RowsBetween(db: Db, t: Target, lo: Sequence, hi: Sequence): seq<Row>
    decreases hi - lo
  {
    if hi <= lo then []
    else RowsBetween(db, t, lo, hi - 1) + (if Taken(db.messages, t, hi) then [RowAt(db, t, hi)] else [])
  }

  function FirstOf<T>(s: seq<T>, n: nat): seq<T> {
    if |s| <= n then s else s[..n]
  }

  function LastOf<T>(s: seq<T>, n: nat): seq<T> {
    if |s| <= n then s else s[|s| - n..]
  }

  function Min(a: int, b: int): int {
    if a < b then a else b
  }

  function Head(db: Db, t: Target): Sequence {
    if t in db.streams then db.streams[t] else 0
  }

  // --- The window check ---

  /** The rows carry exactly the sequences from `first` to `last`. */
  predicate IsWindow(rows: seq<Row>, first: Sequence, last: Sequence) {
    && |rows| == (if first <= last then last - first + 1 else 0)
    && forall i :: 0 <= i < |rows| ==> rows[i].sequence == first + i
  }

  /** Length, both ends, and every step in between: together exactly a window. */
  method AssertExpectedSequenceWindow(rows: seq<Row>, first: Sequence, last: Sequence) returns (ok: bool)
    ensures ok <==> IsWindow(rows, first, last)
  {
    if first > last {
      return rows == [];
    }
    if |rows| != last - first + 1 || rows[0].sequence != first || rows[|rows| - 1].sequence != last {
      return false;
    }
    for index := 1 to |rows|
      invariant forall i :: 0 <= i < index ==> rows[i].sequence == first + i
    {
      if rows[index].sequence != rows[index - 1].sequence + 1 {
        return false;
      }
    }
    return true;
  }

  predicate Parses(row: Row) {
    row.content.None? <==> row.deletedAt.Some?
  }

  predicate AllParse(rows: seq<Row>) {
    forall i :: 0 <= i < |rows| ==> Parses(rows[i])
  }

  /** Every selected row is parsed, and the window checked, before a page is cut from it. */
  function Checked(rows: seq<Row>, expectedCount: nat, first: Sequence, page: seq<Row>, through: Sequence): ReadResult {
    if !AllParse(rows) then ReadFailed(InvalidStorageRow)
    else if |rows| != expectedCount || !IsWindow(rows, first, first + expectedCount - 1) then ReadFailed(SequenceGap)
    else Read(page, through)
  }

  // --- The three readers ---

  ghost function ReadAfter(db: Db, t: Target, after: Sequence, through: Option<Sequence>, limit: nat): ReadResult {
    var head := Head(db, t);
    var throughSequence := if through.Some? then through.value else head;
    if after > head || throughSequence > head || after > throughSequence then InvalidCursor
    else if t !in db.streams || after == throughSequence then Read([], throughSequence)
    else
      var rows := FirstOf(RowsBetween(db, t, after, throughSequence), limit + 1);
      Checked(rows, Min(throughSequence - after, limit + 1), after + 1, FirstOf(rows, limit), throughSequence)
  }

  ghost function ReadOlder(db: Db, t: Target, before: Sequence, limit: nat): ReadResult
    requires before >= 1
  {
    if before > Head(db, t) + 1 then InvalidCursor
    else if t !in db.streams || before == 1 then Read([], 0)
    else
      var rows := LastOf(RowsBetween(db, t, 0, before - 1), limit + 1);
      var expectedCount := Min(before - 1, limit + 1);
      Checked(rows, expectedCount, before - expectedCount, LastOf(rows, limit), 0)
  }

  /** Reads one row more than it returns. The head row count is not checked apart from the window. */
  ghost function ReadLatest(db: Db, t: Target): ReadResult {
    if t !in db.streams then Read([], 0)
    else
      var head := db.streams[t];
      var rows := LastOf(RowsBetween(db, t, 0, head), MAX_LATEST_MESSAGES_QUERY_COUNT + 1);
      if !AllParse(rows) then ReadFailed(InvalidStorageRow)
      else
        var first := if head - MAX_LATEST_MESSAGES_QUERY_COUNT > 1 then head - MAX_LATEST_MESSAGES_QUERY_COUNT else 1;
        if !IsWindow(rows, first, head) then ReadFailed(SequenceGap)
        else Read(LastOf(rows, MAX_LATEST_MESSAGES_QUERY_COUNT), head)
  }

  // --- Resolving what to authorise ---

  datatype ReadTarget = Resolved(authorizationTarget: Target) | Unavailable | ResolveFailed(error: ReadError)

  /** A thread is read on the authority of the stream its root message is in. */
  function ResolveReadTarget(db: Db, t: Target): ReadTarget {
    if !t.Thread? then Resolved(t)
    else if t !in db.streams then Unavailable
    else if t.threadId !in db.messages then ResolveFailed(InvalidThreadOrigin)
    else
      var parent := db.messages[t.threadId].target;
      if parent !in db.streams || parent.Thread? then ResolveFailed(InvalidThreadOrigin) else Resolved(parent)
  }

  /** In a valid store an existing thread always resolves to a channel or DM, also when its root is deleted. */
  lemma ThreadsResolve(db: Db, t: Target)
    requires Valid(db)
    ensures var r := ResolveReadTarget(db, t);
            && !r.ResolveFailed?
            && (r.Unavailable? <==> t.Thread? && t !in db.streams)
            && (r.Resolved? ==> !r.authorizationTarget.Thread?)
            && (r.Resolved? && t.Thread? ==> r.authorizationTarget in db.streams)
            && (r.Resolved? && t.Thread? ==>
                  t.threadId in db.messages && r.authorizationTarget == db.messages[t.threadId].target)
            && (r.Resolved? && !t.Thread? ==> r.authorizationTarget == t)
  {
    if t.Thread? && t in db.streams {
      assert InStream(db.streams, t.threadId, db.messages[t.threadId]);
    }
  }

  /** What a target resolves to does not change any more, whatever is stored meanwhile. */
  lemma ResolutionLasts(db: Db, later: Db, t: Target)
    requires Valid(db) && Valid(later) && Grows(db, later)
    ensures var r := ResolveReadTarget(db, t); r.Resolved? ==> ResolveReadTarget(later, t) == r
  {
    ThreadsResolve(db, t);
    if t.Thread? && t in db.streams {
      assert RowGrows(db.messages[t.threadId], later.messages[t.threadId]);
      ThreadsResolve(later, t);
    }
  }

  // --- Queries over any store: what is selected, and when there is a gap ---

  ghost predicate AllTaken(db: Db, t: Target, lo: Sequence, hi: Sequence) {
    forall s :: lo < s <= hi ==> Taken(db.messages, t, s)
  }

  /** Each selected row is the row of its stream at its sequence, in ascending order. */
  ghost predicate Selected(db: Db, t: Target, rows: seq<Row>, lo: Sequence, hi: Sequence) {
    && (forall i :: 0 <= i < |rows| ==>
          && lo < rows[i].sequence <= hi && Taken(db.messages, t, rows[i].sequence)
          && rows[i] == RowAt(db, t, rows[i].sequence))
    && (forall i, j :: 0 <= i < j < |rows| ==> rows[i].sequence < rows[j].sequence)
  }

  ghost predicate CarriedBy(rows: seq<Row>, s: Sequence) {
    exists i :: 0 <= i < |rows| && rows[i].sequence == s
  }

  lemma {:induction false} RowsBetweenCarries(db: Db, t: Target, lo: Sequence, hi: Sequence, s: Sequence)
    requires lo < s <= hi && Taken(db.messages, t, s)
    ensures CarriedBy(RowsBetween(db, t, lo, hi), s)
    decreases hi - lo
  {
    var before, rows := RowsBetween(db, t, lo, hi - 1), RowsBetween(db, t, lo, hi);
    if s < hi {
      RowsBetweenCarries(db, t, lo, hi - 1, s);
      var i :| 0 <= i < |before| && before[i].sequence == s;
      assert rows[i] == before[i];
    } else {
      assert rows[|before|].sequence == s;
    }
  }

  lemma {:induction false} RowsBetweenAreSelected(db: Db, t: Target, lo: Sequence, hi: Sequence)
    ensures Selected(db, t, RowsBetween(db, t, lo, hi), lo, hi)
    decreases hi - lo
  {
    if lo < hi {
      RowsBetweenAreSelected(db, t, lo, hi - 1);
    }
  }

  /** The query selects every row within the bounds, and no other. */
  lemma RowsBetweenSelects(db: Db, t: Target, lo: Sequence, hi: Sequence)
    ensures Selected(db, t, RowsBetween(db, t, lo, hi), lo, hi)
    ensures forall s :: lo < s <= hi && Taken(db.messages, t, s) ==> CarriedBy(RowsBetween(db, t, lo, hi), s)
  {
    RowsBetweenAreSelected(db, t, lo, hi);
    forall s | lo < s <= hi && Taken(db.messages, t, s) ensures CarriedBy(RowsBetween(db, t, lo, hi), s) {
      RowsBetweenCarries(db, t, lo, hi, s);
    }
  }

  /** A fully occupied stretch is selected completely. */
  lemma {:induction false} RowsBetweenWindow(db: Db, t: Target, lo: Sequence, hi: Sequence)
    requires AllTaken(db, t, lo, hi)
    ensures IsWindow(RowsBetween(db, t, lo, hi), lo + 1, hi)
    decreases hi - lo
  {
    if lo < hi {
      RowsBetweenWindow(db, t, lo, hi - 1);
    }
  }

  /** Selecting a longer stretch only adds rows at the end. */
  lemma {:induction false} RowsBetweenSplits(db: Db, t: Target, lo: Sequence, mid: Sequence, hi: Sequence)
    requires lo <= mid <= hi
    ensures RowsBetween(db, t, lo, hi) == RowsBetween(db, t, lo, mid) + RowsBetween(db, t, mid, hi)
    decreases hi - mid
  {
    if mid < hi {
      RowsBetweenSplits(db, t, lo, mid, hi - 1);
    }
  }
}
