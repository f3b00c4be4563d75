/** From the store to the wire: reading, windows, fitting and contracts, all together. */
module PagePipeline {
  import opened Messages
  import opened Contracts
  import opened MessageStore
  import opened StoreInvariants
  import opened StreamReaders
  import opened PagePolicy

  /** The answer of one of the three queries. */
  datatype Served<R> =
    | ServedPage(response: R)
    | BadRequest
    | StreamUnavailable
    | CursorInvalid
    | Failed(error: ReadError)
    | NotMeasured
    | Oversized(message: PublicMessage)

  function FromFit<R>(f: Fitted<R>): Served<R> {
    match f
    case Page(r, _) => ServedPage(r)
    case OversizedRow(m) => Oversized(m)
    case InvalidEnvelopeMeasurement => NotMeasured
  }

  function FitRows<R>(rows: seq<Row>, keepNewest: bool, build: seq<PublicMessage> -> R, measure: R -> Measurement)
    : Served<R>
  {
    if !AllParse(rows) then Failed(InvalidStorageRow)
    else FromFit(Fit(PublicMessages(rows), keepNewest, build, measure))
  }

  predicate GoodLimit(limit: int) {
    1 <= limit <= MAX_STREAM_MESSAGES_QUERY_PAGE_SIZE
  }

  /** `allowed` is the verdict of the read authoriser on the resolved target. */
  ghost function ServeSync(
    db: Db, t: Target, allowed: bool, after: Sequence, through: Option<Sequence>, limit: int,
    measure: SyncResponse -> Measurement): Served<SyncResponse>
  {
    SyncAfter(db, db, t, allowed, after, through, limit, measure)
  }

  /** The target is resolved by a query of its own, on the store as it was then. */
  ghost function SyncAfter(
    earlier: Db, db: Db, t: Target, allowed: bool, after: Sequence, through: Option<Sequence>, limit: int,
    measure: SyncResponse -> Measurement): Served<SyncResponse>
  {
    if after < 0 || !GoodLimit(limit) || (through.Some? && (through.value < 0 || after > through.value)) then BadRequest
    else
      var target := ResolveReadTarget(earlier, t);
      if target.ResolveFailed? then Failed(target.error)
      else if target.Unavailable? || !allowed then StreamUnavailable
      else match ReadAfter(db, t, after, through, limit)
        case InvalidCursor => CursorInvalid
        case ReadFailed(e) => Failed(e)
        case Read(rows, T) => FitRows(rows, false, BuildSync(t, after, T), measure)
  }

  ghost function ServeOlder(
    db: Db, t: Target, allowed: bool, before: Sequence, limit: int, measure: OlderResponse -> Measurement)
    : Served<OlderResponse>
  {
    LoadOlder(db, db, t, allowed, before, limit, measure)
  }

  ghost function LoadOlder(
    earlier: Db, db: Db, t: Target, allowed: bool, before: Sequence, limit: int, measure: OlderResponse -> Measurement)
    : Served<OlderResponse>
  {
    if before < 1 || !GoodLimit(limit) then BadRequest
    else
      var target := ResolveReadTarget(earlier, t);
      if target.ResolveFailed? then Failed(target.error)
      else if target.Unavailable? || !allowed then StreamUnavailable
      else match ReadOlder(db, t, before, limit)
        case InvalidCursor => CursorInvalid
        case ReadFailed(e) => Failed(e)
        case Read(rows, _) => FitRows(rows, true, BuildOlder(t, before), measure)
  }

  ghost function ServeLatest(db: Db, t: Target, allowed: bool, measure: LatestResponse -> Measurement)
    : Served<LatestResponse>
  {
    LoadLatest(db, db, t, allowed, measure)
  }

  ghost function LoadLatest(earlier: Db, db: Db, t: Target, allowed: bool, measure: LatestResponse -> Measurement)
    : Served<LatestResponse>
  {
    var target := ResolveReadTarget(earlier, t);
    if target.ResolveFailed? then Failed(target.error)
    else if target.Unavailable? || !allowed then StreamUnavailable
    else match ReadLatest(db, t)
      case InvalidCursor => CursorInvalid
      case ReadFailed(e) => Failed(e)
      case Read(rows, T) => FitRows(rows, true, BuildLatest(t, T), measure)
  }

  /** The verdict that makes up for what was not there yet when the target was resolved. */
  function StillAllowed(earlier: Db, t: Target, allowed: bool): bool {
    allowed && !ResolveReadTarget(earlier, t).Unavailable?
  }

  /**
   * Whatever is stored between resolving the target and reading the page, the answer is one that the
   * later store alone could have given, under some verdict of the authoriser.
   */
  lemma SyncAsIfAtOnce(earlier: Db, db: Db, t: Target, allowed: bool, after: Sequence, through: Option<Sequence>,
                       limit: int, measure: SyncResponse -> Measurement)
    requires Valid(earlier) && Valid(db) && Grows(earlier, db)
    ensures SyncAfter(earlier, db, t, allowed, after, through, limit, measure)
            == ServeSync(db, t, StillAllowed(earlier, t, allowed), after, through, limit, measure)
  {
    ThreadsResolve(earlier, t);
    ThreadsResolve(db, t);
    ResolutionLasts(earlier, db, t);
  }

  lemma OlderAsIfAtOnce(earlier: Db, db: Db, t: Target, allowed: bool, before: Sequence, limit: int,
                        measure: OlderResponse -> Measurement)
    requires Valid(earlier) && Valid(db) && Grows(earlier, db)
    ensures LoadOlder(earlier, db, t, allowed, before, limit, measure)
            == ServeOlder(db, t, StillAllowed(earlier, t, allowed), before, limit, measure)
  {
    ThreadsResolve(earlier, t);
    ThreadsResolve(db, t);
    ResolutionLasts(earlier, db, t);
  }

  lemma LatestAsIfAtOnce(earlier: Db, db: Db, t: Target, allowed: bool, measure: LatestResponse -> Measurement)
    requires Valid(earlier) && Valid(db) && Grows(earlier, db)
    ensures LoadLatest(earlier, db, t, allowed, measure)
            == ServeLatest(db, t, StillAllowed(earlier, t, allowed), measure)
  {
    ThreadsResolve(earlier, t);
    ThreadsResolve(db, t);
    ResolutionLasts(earlier, db, t);
  }

  // --- Windows of a stream ---

  /** `rows` are the stream's rows from `first` to `last`. */
  ghost predicate IsStretch(db: Db, t: Target, rows: seq<Row>, first: Sequence, last: Sequence) {
    && IsWindow(rows, first, last)
    && (forall i :: 0 <= i < |rows| ==>
          && Parses(rows[i]) && rows[i].target == t
          && rows[i].messageId in db.messages && db.messages[rows[i].messageId] == rows[i])
  }

  lemma StretchOfAll(db: Db, t: Target, lo: Sequence, hi: Sequence)
    requires Valid(db) && t in db.streams && 0 <= lo <= hi <= db.streams[t]
    ensures IsStretch(db, t, RowsBetween(db, t, lo, hi), lo + 1, hi)
  {
    assert AllTaken(db, t, lo, hi);
    RowsBetweenWindow(db, t, lo, hi);
    RowsBetweenSelects(db, t, lo, hi);
    var rows := RowsBetween(db, t, lo, hi);
    forall i | 0 <= i < |rows|
      ensures Parses(rows[i]) && rows[i].target == t && rows[i].messageId in db.messages
              && db.messages[rows[i].messageId] == rows[i]
    {
      var s := rows[i].sequence;
      var id :| id in db.messages && db.messages[id].target == t && db.messages[id].sequence == s
          && rows[i] == db.messages[id];
      assert InStream(db.streams, id, rows[i]) && LivesRight(rows[i]);
    }
  }

  lemma FirstIsStretch(db: Db, t: Target, rows: seq<Row>, first: Sequence, last: Sequence, n: nat)
    requires IsStretch(db, t, rows, first, last) && first <= last + 1
    ensures IsStretch(db, t, FirstOf(rows, n), first, first + Min(last + 1 - first, n) - 1)
  {
  }

  lemma LastIsStretch(db: Db, t: Target, rows: seq<Row>, first: Sequence, last: Sequence, n: nat)
    requires IsStretch(db, t, rows, first, last) && first <= last + 1
    ensures IsStretch(db, t, LastOf(rows, n), last + 1 - Min(last + 1 - first, n), last)
  {
  }

  /** Cutting twice is cutting once to the shorter length. */
  lemma CutsTwice(rows: seq<Row>, n: nat)
    ensures FirstOf(FirstOf(rows, n + 1), n) == FirstOf(rows, n) && LastOf(LastOf(rows, n + 1), n) == LastOf(rows, n)
  {
  }

  lemma StretchParses(db: Db, t: Target, rows: seq<Row>, first: Sequence, last: Sequence)
    requires IsStretch(db, t, rows, first, last)
    ensures AllParse(rows)
  {
  }

  /** A stretch passes the checks of the readers. */
  lemma StretchPasses(db: Db, t: Target, rows: seq<Row>, n: nat, first: Sequence, page: seq<Row>, through: Sequence)
    requires IsStretch(db, t, rows, first, first + n - 1)
    ensures Checked(rows, n, first, page, through) == Read(page, through)
  {
    StretchParses(db, t, rows, first, first + n - 1);
  }

  lemma FirstRowsPass(db: Db, t: Target, all: seq<Row>, after: Sequence, T: Sequence, limit: nat)
    requires IsStretch(db, t, all, after + 1, T) && after <= T
    ensures var page := FirstOf(FirstOf(all, limit + 1), limit);
            && Checked(FirstOf(all, limit + 1), Min(T - after, limit + 1), after + 1, page, T) == Read(page, T)
            && IsStretch(db, t, page, after + 1, after + Min(T - after, limit))
  {
    FirstIsStretch(db, t, all, after + 1, T, limit + 1);
    FirstIsStretch(db, t, all, after + 1, T, limit);
    StretchPasses(db, t, FirstOf(all, limit + 1), Min(T - after, limit + 1), after + 1, FirstOf(all, limit), T);
    CutsTwice(all, limit);
  }

  /** On a valid store no reader ever reports a gap or a broken row; the page read is a stretch of the stream. */
  lemma ReadAfterIsStretch(db: Db, t: Target, after: Sequence, through: Option<Sequence>, limit: nat)
    requires Valid(db) && after >= 0 && limit > 0
    ensures var r := ReadAfter(db, t, after, through, limit);
            && !r.ReadFailed?
            && (r.Read? ==>
                  && r.throughSequence == (if through.Some? then through.value else Head(db, t))
                  && after <= r.throughSequence <= Head(db, t)
                  && IsStretch(db, t, r.rows, after + 1, after + Min(r.throughSequence - after, limit)))
  {
    var T := if through.Some? then through.value else Head(db, t);
    if t in db.streams && after < T <= Head(db, t) {
      StretchOfAll(db, t, after, T);
      FirstRowsPass(db, t, RowsBetween(db, t, after, T), after, T, limit);
    }
  }

  lemma ReadOlderIsStretch(db: Db, t: Target, before: Sequence, limit: nat)
    requires Valid(db) && before >= 1 && limit > 0
    ensures var r := ReadOlder(db, t, before, limit);
            && !r.ReadFailed?
            && (r.Read? ==>
                  && before <= Head(db, t) + 1
                  && IsStretch(db, t, r.rows, before - Min(before - 1, limit), before - 1))
  {
    if t in db.streams && 1 < before <= Head(db, t) + 1 {
      var all := RowsBetween(db, t, 0, before - 1);
      StretchOfAll(db, t, 0, before - 1);
      LastIsStretch(db, t, all, 1, before - 1, limit + 1);
      LastIsStretch(db, t, all, 1, before - 1, limit);
      StretchPasses(db, t, LastOf(all, limit + 1), Min(before - 1, limit + 1), before - Min(before - 1, limit + 1),
                    LastOf(all, limit), 0);
      CutsTwice(all, limit);
    }
  }

  /** The oldest place of the latest page. */
  function LatestFirst(head: Sequence): Sequence {
    head + 1 - Min(head, MAX_LATEST_MESSAGES_QUERY_COUNT)
  }

  lemma ReadLatestIsStretch(db: Db, t: Target)
    requires Valid(db)
    ensures var r := ReadLatest(db, t);
            && r.Read? && r.throughSequence == Head(db, t) >= 0
            && IsStretch(db, t, r.rows, LatestFirst(Head(db, t)), Head(db, t))
  {
    if t in db.streams {
      var head := db.streams[t];
      var all := RowsBetween(db, t, 0, head);
      StretchOfAll(db, t, 0, head);
      LastIsStretch(db, t, all, 1, head, MAX_LATEST_MESSAGES_QUERY_COUNT + 1);
      LastIsStretch(db, t, all, 1, head, MAX_LATEST_MESSAGES_QUERY_COUNT);
      StretchParses(db, t, LastOf(all, MAX_LATEST_MESSAGES_QUERY_COUNT + 1),
                    head + 1 - Min(head, MAX_LATEST_MESSAGES_QUERY_COUNT + 1), head);
      CutsTwice(all, MAX_LATEST_MESSAGES_QUERY_COUNT);
    }
  }

  lemma SelectedParses(db: Db, t: Target, rows: seq<Row>, lo: Sequence, hi: Sequence)
    requires AllLiveRight(db.messages) && Selected(db, t, rows, lo, hi)
    ensures AllParse(rows)
  {
    forall i | 0 <= i < |rows| ensures Parses(rows[i]) {
      var s := rows[i].sequence;
      var id :| id in db.messages && db.messages[id].target == t && db.messages[id].sequence == s
          && rows[i] == db.messages[id];
      assert LivesRight(db.messages[id]);
    }
  }

  /** The first rows of a stretch form a window exactly when its first places are all taken. */
  lemma WindowExactlyWhenTaken(db: Db, t: Target, after: Sequence, T: Sequence, n: nat)
    requires after + n <= T
    ensures IsWindow(FirstOf(RowsBetween(db, t, after, T), n), after + 1, after + n) <==>
            AllTaken(db, t, after, after + n)
  {
    var rows := FirstOf(RowsBetween(db, t, after, T), n);
    RowsBetweenSelects(db, t, after, T);
    if AllTaken(db, t, after, after + n) {
      RowsBetweenWindow(db, t, after, after + n);
      RowsBetweenSplits(db, t, after, after + n, T);
      assert rows == RowsBetween(db, t, after, after + n);
    }
    if IsWindow(rows, after + 1, after + n) {
      forall s | after < s <= after + n ensures Taken(db.messages, t, s) {
        assert rows[s - after - 1].sequence == s;
      }
    }
  }

  lemma {:induction false} RowsFitBetween(db: Db, t: Target, lo: Sequence, hi: Sequence)
    requires lo <= hi
    ensures |RowsBetween(db, t, lo, hi)| <= hi - lo
    decreases hi - lo
  {
    if lo < hi {
      RowsFitBetween(db, t, lo, hi - 1);
    }
  }

  /** On any store, the sync reader reports a gap exactly when a place in the window it asks for is empty. */
  lemma GapExactlyWhenMissing(db: Db, t: Target, after: Sequence, T: Sequence, limit: nat)
    requires AllLiveRight(db.messages) && limit > 0 && t in db.streams && after < T <= db.streams[t]
    ensures ReadAfter(db, t, after, Some(T), limit) == ReadFailed(SequenceGap) <==>
            !AllTaken(db, t, after, after + Min(T - after, limit + 1))
  {
    var rows := FirstOf(RowsBetween(db, t, after, T), limit + 1);
    RowsBetweenSelects(db, t, after, T);
    SelectedParses(db, t, rows, after, T);
    RowsFitBetween(db, t, after, T);
    assert rows == FirstOf(RowsBetween(db, t, after, T), Min(T - after, limit + 1));
    WindowExactlyWhenTaken(db, t, after, T, Min(T - after, limit + 1));
  }

  // --- Candidates meet their contracts ---

  /** The public form of a stored message of the stream. */
  ghost predicate FromStore(db: Db, t: Target, m: PublicMessage) {
    && m.messageId in db.messages && db.messages[m.messageId].target == t
    && Parses(db.messages[m.messageId]) && m == PublicOf(db.messages[m.messageId])
  }

  ghost predicate AllFromStore(db: Db, t: Target, ms: seq<PublicMessage>) {
    forall i :: 0 <= i < |ms| ==> FromStore(db, t, ms[i])
  }

  lemma CutIsPage(db: Db, t: Target, rows: seq<Row>, first: Sequence, last: Sequence, keepNewest: bool, k: nat)
    requires IsStretch(db, t, rows, first, last) && AllParse(rows) && k <= |rows|
    ensures var ms := Cut(PublicMessages(rows), keepNewest, k);
            && |ms| == k && AllFromStore(db, t, ms) && ValidPageMessages(ms, CanonicalStreamId(t))
            && (k > 0 ==>
                  && ms[0].sequence == (if keepNewest then last - k + 1 else first)
                  && ms[k - 1].sequence == (if keepNewest then last else first + k - 1))
  {
  }

  /** A page that is not empty is never cut to nothing. */
  predicate IsCandidate(ms: seq<PublicMessage>, k: nat) {
    k <= |ms| && (ms != [] ==> k > 0)
  }

  /** What the fitting loop returns is one of the candidates. */
  lemma FittedIsCandidate<R>(ms: seq<PublicMessage>, keepNewest: bool, build: seq<PublicMessage> -> R,
                             measure: R -> Measurement)
    returns (k: nat)
    ensures IsCandidate(ms, k)
    ensures var f := Fit(ms, keepNewest, build, measure); f.Page? ==> f.response == build(Cut(ms, keepNewest, k))
  {
    FitIsLongest(ms, keepNewest, build, measure);
    k := |ms|;
    match Fit(ms, keepNewest, build, measure) {
      case Page(r, bytes) =>
        k :| 0 <= k <= |ms| && (ms != [] ==> 0 < k) && FirstCandidate(ms, keepNewest, build, measure, k)
             && Fits(ms, keepNewest, build, measure, k) && r == build(Cut(ms, keepNewest, k));
      case _ =>
    }
  }

  /** Every sync response the fitting loop can measure satisfies its contract, and holds stored messages. */
  lemma SyncCandidates(db: Db, t: Target, rows: seq<Row>, after: Sequence, T: Sequence, limit: int, k: nat)
    requires GoodLimit(limit) && 0 <= after <= T && IsStretch(db, t, rows, after + 1, after + Min(T - after, limit))
    requires AllParse(rows) && IsCandidate(PublicMessages(rows), k)
    ensures var r := BuildSync(t, after, T)(Cut(PublicMessages(rows), false, k));
            SyncContract(r) && AllFromStore(db, t, r.messages)
  {
    CutIsPage(db, t, rows, after + 1, after + Min(T - after, limit), false, k);
  }

  lemma OlderCandidates(db: Db, t: Target, rows: seq<Row>, before: Sequence, limit: int, k: nat)
    requires GoodLimit(limit) && before >= 1 && IsStretch(db, t, rows, before - Min(before - 1, limit), before - 1)
    requires AllParse(rows) && IsCandidate(PublicMessages(rows), k)
    ensures var r := BuildOlder(t, before)(Cut(PublicMessages(rows), true, k));
            OlderContract(r) && AllFromStore(db, t, r.messages)
  {
    CutIsPage(db, t, rows, before - Min(before - 1, limit), before - 1, true, k);
  }

  lemma LatestCandidates(db: Db, t: Target, rows: seq<Row>, head: Sequence, k: nat)
    requires 0 <= head && IsStretch(db, t, rows, LatestFirst(head), head)
    requires AllParse(rows) && IsCandidate(PublicMessages(rows), k)
    ensures var r := BuildLatest(t, head)(Cut(PublicMessages(rows), true, k));
            LatestContract(r) && AllFromStore(db, t, r.messages)
  {
    CutIsPage(db, t, rows, LatestFirst(head), head, true, k);
  }

  // --- What is served ---

  ghost predicate GoodSyncPage(db: Db, t: Target, r: SyncResponse, after: Sequence, T: Sequence) {
    && SyncContract(r) && r.streamId == CanonicalStreamId(t) && AllFromStore(db, t, r.messages)
    && r.afterSequence == after && r.throughSequence == T
    && (r.hasMoreAfter ==> after < r.nextAfterSequence)
  }

  ghost predicate GoodOlderPage(db: Db, t: Target, r: OlderResponse, before: Sequence) {
    OlderContract(r) && r.streamId == CanonicalStreamId(t) && AllFromStore(db, t, r.messages)
        && r.beforeSequence == before
  }

  ghost predicate GoodLatestPage(db: Db, t: Target, r: LatestResponse) {
    LatestContract(r) && r.streamId == CanonicalStreamId(t) && AllFromStore(db, t, r.messages)
        && r.throughSequence == Head(db, t)
  }

  lemma SyncFits(db: Db, t: Target, rows: seq<Row>, after: Sequence, T: Sequence, limit: int,
                 measure: SyncResponse -> Measurement)
    requires GoodLimit(limit) && 0 <= after <= T && IsStretch(db, t, rows, after + 1, after + Min(T - after, limit))
    ensures var s := FitRows(rows, false, BuildSync(t, after, T), measure);
            !s.Failed? && (s.ServedPage? ==> GoodSyncPage(db, t, s.response, after, T))
  {
    StretchParses(db, t, rows, after + 1, after + Min(T - after, limit));
    var k := FittedIsCandidate(PublicMessages(rows), false, BuildSync(t, after, T), measure);
    SyncCandidates(db, t, rows, after, T, limit, k);
  }

  lemma OlderFits(db: Db, t: Target, rows: seq<Row>, before: Sequence, limit: int,
                  measure: OlderResponse -> Measurement)
    requires GoodLimit(limit) && before >= 1 && IsStretch(db, t, rows, before - Min(before - 1, limit), before - 1)
    ensures var s := FitRows(rows, true, BuildOlder(t, before), measure);
            !s.Failed? && (s.ServedPage? ==> GoodOlderPage(db, t, s.response, before))
  {
    StretchParses(db, t, rows, before - Min(before - 1, limit), before - 1);
    var k := FittedIsCandidate(PublicMessages(rows), true, BuildOlder(t, before), measure);
    OlderCandidates(db, t, rows, before, limit, k);
  }

  lemma LatestFits(db: Db, t: Target, rows: seq<Row>, measure: LatestResponse -> Measurement)
    requires 0 <= Head(db, t) && IsStretch(db, t, rows, LatestFirst(Head(db, t)), Head(db, t))
    ensures var s := FitRows(rows, true, BuildLatest(t, Head(db, t)), measure);
            !s.Failed? && (s.ServedPage? ==> GoodLatestPage(db, t, s.response))
  {
    StretchParses(db, t, rows, LatestFirst(Head(db, t)), Head(db, t));
    var k := FittedIsCandidate(PublicMessages(rows), true, BuildLatest(t, Head(db, t)), measure);
    LatestCandidates(db, t, rows, Head(db, t), k);
  }

  /** A served sync page satisfies its contract and moves on unless it is final; no integrity error is possible. */
  lemma SyncServed(db: Db, t: Target, allowed: bool, after: Sequence, through: Option<Sequence>, limit: int,
                   measure: SyncResponse -> Measurement)
    requires Valid(db)
    ensures var s := ServeSync(db, t, allowed, after, through, limit, measure);
            var T := if through.Some? then through.value else Head(db, t);
            !s.Failed? && (s.ServedPage? ==> T <= Head(db, t) && GoodSyncPage(db, t, s.response, after, T))
  {
    ThreadsResolve(db, t);
    if after >= 0 && GoodLimit(limit) {
      ReadAfterIsStretch(db, t, after, through, limit);
      var r := ReadAfter(db, t, after, through, limit);
      if r.Read? {
        SyncFits(db, t, r.rows, after, r.throughSequence, limit, measure);
      }
    }
  }

  lemma OlderServed(db: Db, t: Target, allowed: bool, before: Sequence, limit: int,
                    measure: OlderResponse -> Measurement)
    requires Valid(db)
    ensures var s := ServeOlder(db, t, allowed, before, limit, measure);
            !s.Failed? && (s.ServedPage? ==> GoodOlderPage(db, t, s.response, before))
  {
    ThreadsResolve(db, t);
    if before >= 1 && GoodLimit(limit) {
      ReadOlderIsStretch(db, t, before, limit);
      var r := ReadOlder(db, t, before, limit);
      if r.Read? {
        OlderFits(db, t, r.rows, before, limit, measure);
      }
    }
  }

  lemma LatestServed(db: Db, t: Target, allowed: bool, measure: LatestResponse -> Measurement)
    requires Valid(db)
    ensures var s := ServeLatest(db, t, allowed, measure);
            !s.Failed? && (s.ServedPage? ==> GoodLatestPage(db, t, s.response))
  {
    ThreadsResolve(db, t);
    ReadLatestIsStretch(db, t);
    LatestFits(db, t, ReadLatest(db, t).rows, measure);
  }
}
