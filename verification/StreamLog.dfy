/** The store seen as append-only logs, one per stream, and pages as stretches of a log. */
module StreamLog {
  import opened Messages
  import opened Contracts
  import opened MessageStore
  import opened StoreInvariants
  import opened StreamReaders
  import opened PagePolicy
  import opened PagePipeline
  import opened TimelineCoverage

  /** The ids of a stream's messages in sequence order. */
  ghost function LogOf(db: Db, t: Target): (log: Log)
    requires Dense(db)
    ensures |log| == Head(db, t)
  {
    if t !in db.streams then []
    else seq(db.streams[t], i requires 0 <= i < db.streams[t] => RowAt(db, t, i + 1).messageId)
  }

  lemma LogHolds(db: Db, t: Target, id: MessageId)
    requires Dense(db) && id in db.messages && db.messages[id].target == t
    ensures LogHas(LogOf(db, t), db.messages[id].sequence, id)
  {
    var row := db.messages[id];
    assert InStream(db.streams, id, row);
    assert Taken(db.messages, t, row.sequence);
    var other :| other in db.messages && db.messages[other].target == t && db.messages[other].sequence == row.sequence
                 && RowAt(db, t, row.sequence) == db.messages[other];
    assert SamePlace(db.messages[other], row);
  }

  lemma LogIsStored(db: Db, t: Target, s: Sequence)
    requires Dense(db) && 1 <= s <= Head(db, t)
    ensures var id := LogOf(db, t)[s - 1];
            id in db.messages && db.messages[id].target == t && db.messages[id].sequence == s
  {
    assert Taken(db.messages, t, s);
    var id :| id in db.messages && db.messages[id].target == t && db.messages[id].sequence == s
        && RowAt(db, t, s) == db.messages[id];
    assert InStream(db.streams, id, db.messages[id]);
  }

  lemma LogIsDistinct(db: Db, t: Target)
    requires Dense(db)
    ensures Distinct(LogOf(db, t))
  {
    var log := LogOf(db, t);
    forall i, j | 0 <= i < j < |log| ensures log[i] != log[j] {
      LogIsStored(db, t, i + 1);
      LogIsStored(db, t, j + 1);
    }
  }

  /** No transaction rewrites a log; it can only add to its end. */
  lemma LogGrows(db: Db, later: Db, t: Target)
    requires Dense(db) && Dense(later) && Grows(db, later)
    ensures LogOf(db, t) <= LogOf(later, t)
  {
    var log := LogOf(db, t);
    forall i | 0 <= i < |log| ensures LogHas(LogOf(later, t), i + 1, log[i]) {
      LogIsStored(db, t, i + 1);
      assert RowGrows(db.messages[log[i]], later.messages[log[i]]);
      LogHolds(later, t, log[i]);
    }
  }

  lemma StoredIsHonest(db: Db, t: Target, m: PublicMessage)
    requires Dense(db) && FromStore(db, t, m)
    ensures HonestTo(t, LogOf(db, t), m)
  {
    assert InStream(db.streams, m.messageId, db.messages[m.messageId]);
    LogHolds(db, t, m.messageId);
  }

  lemma PageIsHonest(db: Db, t: Target, ms: seq<PublicMessage>)
    requires Dense(db) && AllFromStore(db, t, ms)
    ensures AllHonestTo(t, LogOf(db, t), ms)
  {
    forall i | 0 <= i < |ms| ensures HonestTo(t, LogOf(db, t), ms[i]) {
      StoredIsHonest(db, t, ms[i]);
    }
  }

  // --- Chains of sync pages ---

  /** The store answers a sync request from `after` with this page, under the watermark `T`. */
  ghost predicate Answers(db: Db, t: Target, after: Sequence, T: Sequence, page: SyncResponse) {
    exists allowed: bool, through: Option<Sequence>, limit: int, measure: SyncResponse -> Measurement ::
      && ServeSync(db, t, allowed, after, through, limit, measure) == ServedPage(page)
      && T == if through.Some? then through.value else Head(db, t)
  }

  /**
   * Consecutive pages under one watermark: each starts where the one before ended, and is answered
   * by the store as it is by then. Anything may be appended, edited or deleted in between.
   */
  ghost predicate SyncChain(dbs: seq<Db>, t: Target, after: Sequence, T: Sequence, pages: seq<SyncResponse>)
    requires |dbs| == |pages|
    decreases |pages|
  {
    pages == [] ||
    (&& Valid(dbs[0]) && Answers(dbs[0], t, after, T, pages[0])
     && (|pages| > 1 ==> pages[0].hasMoreAfter && Grows(dbs[0], dbs[1]))
     && SyncChain(dbs[1..], t, pages[0].nextAfterSequence, T, pages[1..]))
  }

  function Concatenated(pages: seq<SyncResponse>): seq<PublicMessage>
    decreases |pages|
  {
    if pages == [] then [] else pages[0].messages + Concatenated(pages[1..])
  }

  lemma AnswerIsGood(db: Db, t: Target, after: Sequence, T: Sequence, page: SyncResponse)
    requires Valid(db) && Answers(db, t, after, T, page)
    ensures T <= Head(db, t) && GoodSyncPage(db, t, page, after, T)
  {
    var allowed: bool, through: Option<Sequence>, limit: int, measure: SyncResponse -> Measurement :|
      && ServeSync(db, t, allowed, after, through, limit, measure) == ServedPage(page)
      && T == if through.Some? then through.value else Head(db, t);
    SyncServed(db, t, allowed, after, through, limit, measure);
  }

  /** The messages carry the sequences right after `after`, and the log's ids. */
  ghost predicate IsLogStretch(t: Target, log: Log, after: Sequence, ms: seq<PublicMessage>) {
    AllHonestTo(t, log, ms) && forall i :: 0 <= i < |ms| ==> ms[i].sequence == after + 1 + i
  }

  lemma {:induction false} LastOfChainGrows(dbs: seq<Db>, t: Target, after: Sequence, T: Sequence,
                                            pages: seq<SyncResponse>)
    requires |dbs| == |pages| > 0 && SyncChain(dbs, t, after, T, pages)
    ensures Valid(dbs[|dbs| - 1]) && Grows(dbs[0], dbs[|dbs| - 1])
    decreases |pages|
  {
    if |pages| > 1 {
      LastOfChainGrows(dbs[1..], t, pages[0].nextAfterSequence, T, pages[1..]);
      assert dbs[1..][|dbs| - 2] == dbs[|dbs| - 1];
      GrowsIsTransitive(dbs[0], dbs[1], dbs[|dbs| - 1]);
    }
  }

  /** A page ends at the watermark exactly when it is final. */
  predicate EndsRight(page: SyncResponse, T: Sequence) {
    if page.hasMoreAfter then page.nextAfterSequence < T else page.nextAfterSequence == T
  }

  /** A page that meets the contract holds what lies between its cursor and its end. */
  lemma PageIsFilled(page: SyncResponse)
    requires SyncContract(page)
    ensures |page.messages| == page.nextAfterSequence - page.afterSequence && EndsRight(page, page.throughSequence)
    ensures forall i :: 0 <= i < |page.messages| ==> page.messages[i].sequence == page.afterSequence + 1 + i
  {
  }

  lemma HonestStaysHonest(t: Target, log: Log, longer: Log, ms: seq<PublicMessage>)
    requires log <= longer && AllHonestTo(t, log, ms)
    ensures AllHonestTo(t, longer, ms)
  {
  }

  /** One page of a chain, seen from the log as it is later. */
  lemma PageIsStretch(db: Db, later: Db, t: Target, after: Sequence, T: Sequence, page: SyncResponse)
    requires Valid(db) && Valid(later) && Grows(db, later) && Answers(db, t, after, T, page)
    ensures |page.messages| == page.nextAfterSequence - after && T <= Head(later, t)
    ensures IsLogStretch(t, LogOf(later, t), after, page.messages)
    ensures EndsRight(page, T)
  {
    AnswerIsGood(db, t, after, T, page);
    PageIsFilled(page);
    PageIsHonest(db, t, page.messages);
    LogGrows(db, later, t);
    HonestStaysHonest(t, LogOf(db, t), LogOf(later, t), page.messages);
  }

  lemma StretchesJoin(t: Target, log: Log, after: Sequence, ms: seq<PublicMessage>, rest: seq<PublicMessage>)
    requires IsLogStretch(t, log, after, ms) && IsLogStretch(t, log, after + |ms|, rest)
    ensures IsLogStretch(t, log, after, ms + rest)
  {
  }

  lemma {:induction false} ChainIsStretch(
    dbs: seq<Db>, t: Target, after: Sequence, T: Sequence, pages: seq<SyncResponse>, last: Db)
    requires |dbs| == |pages| > 0 && SyncChain(dbs, t, after, T, pages)
    requires Valid(last) && Grows(dbs[|dbs| - 1], last)
    ensures |Concatenated(pages)| == pages[|pages| - 1].nextAfterSequence - after
    ensures IsLogStretch(t, LogOf(last, t), after, Concatenated(pages))
    ensures T <= Head(last, t) && EndsRight(pages[|pages| - 1], T)
    decreases |pages|
  {
    LastOfChainGrows(dbs, t, after, T, pages);
    GrowsIsTransitive(dbs[0], dbs[|dbs| - 1], last);
    PageIsStretch(dbs[0], last, t, after, T, pages[0]);
    if |pages| == 1 {
      assert Concatenated(pages) == pages[0].messages;
    } else {
      ChainIsStretch(dbs[1..], t, pages[0].nextAfterSequence, T, pages[1..], last);
      StretchesJoin(t, LogOf(last, t), after, pages[0].messages, Concatenated(pages[1..]));
    }
  }

  /**
   * Concatenating sync pages under one watermark yields the log from the first cursor on without a
   * gap or a repetition, up to where the last page ends; if that one is final, up to the watermark.
   */
  lemma SyncPagesConcatenate(dbs: seq<Db>, t: Target, after: Sequence, T: Sequence, pages: seq<SyncResponse>)
    requires |dbs| == |pages| > 0 && SyncChain(dbs, t, after, T, pages)
    ensures var last, page := dbs[|dbs| - 1], pages[|pages| - 1];
            var ms := Concatenated(pages);
            && Valid(last) && T <= Head(last, t)
            && |ms| == page.nextAfterSequence - after && IsLogStretch(t, LogOf(last, t), after, ms)
            && EndsRight(page, T)
  {
    var last := dbs[|dbs| - 1];
    LastOfChainGrows(dbs, t, after, T, pages);
    GrowsIsReflexive(last);
    ChainIsStretch(dbs, t, after, T, pages, last);
  }
}
