/** Exactly what each query answers on a valid store, and what a page it serves holds, field by field. */
module ServedAnswers {
  import opened Messages
  import opened Contracts
  import opened MessageStore
  import opened StoreInvariants
  import opened StreamReaders
  import opened PagePolicy
  import opened PagePipeline

  // --- What a page shows ---

  /** A message on the wire tells of its row: the text with its last edit, or only when it was deleted. */
  predicate ShowsRow(m: PublicMessage, row: Row) {
    && m.messageId == row.messageId && m.streamId == CanonicalStreamId(row.target) && m.target == row.target
    && m.sequence == row.sequence && m.senderActorId == row.senderActorId
    && m.createdAt == row.createdAt && m.sentAtClient == None
    && match row.deletedAt
       case Some(at) => m.body == Tombstone(at)
       case None => row.content.Some? && m.body == Text(row.content.value, row.editedAt)
  }

  ghost predicate ShowsPlace(db: Db, t: Target, m: PublicMessage, s: Sequence) {
    && m.messageId in db.messages && ShowsRow(m, db.messages[m.messageId])
    && m.target == t && m.sequence == s
  }

  /** The messages show the stream's places one after the other, from `first` on. */
  ghost predicate ShowsPlaces(db: Db, t: Target, ms: seq<PublicMessage>, first: Sequence) {
    forall i :: 0 <= i < |ms| ==> ShowsPlace(db, t, ms[i], first + i)
  }

  lemma PublicFormShows(row: Row)
    requires Parses(row)
    ensures ShowsRow(PublicOf(row), row)
  {
  }

  /** A place shows one message only. */
  lemma PlaceShowsOne(db: Db, t: Target, a: PublicMessage, b: PublicMessage, s: Sequence)
    requires Valid(db) && ShowsPlace(db, t, a, s) && ShowsPlace(db, t, b, s)
    ensures a == b
  {
    assert SamePlace(db.messages[a.messageId], db.messages[b.messageId]);
  }

  lemma PlacesShowOne(db: Db, t: Target, a: seq<PublicMessage>, b: seq<PublicMessage>, first: Sequence)
    requires Valid(db) && |a| == |b| && ShowsPlaces(db, t, a, first) && ShowsPlaces(db, t, b, first)
    ensures a == b
  {
    forall i | 0 <= i < |a| ensures a[i] == b[i] {
      PlaceShowsOne(db, t, a[i], b[i], first + i);
    }
  }

  lemma CutShows(db: Db, t: Target, rows: seq<Row>, first: Sequence, last: Sequence, keepNewest: bool, k: nat)
    requires Valid(db) && IsStretch(db, t, rows, first, last) && AllParse(rows) && k <= |rows|
    ensures |Cut(PublicMessages(rows), keepNewest, k)| == k
    ensures ShowsPlaces(db, t, Cut(PublicMessages(rows), keepNewest, k), if keepNewest then last - k + 1 else first)
  {
    var ms, from := PublicMessages(rows), if keepNewest then |rows| - k else 0;
    forall i | 0 <= i < k ensures ShowsPlace(db, t, Cut(ms, keepNewest, k)[i], first + from + i) {
      PublicFormShows(rows[from + i]);
    }
  }

  // --- What fits ---

  /** The measurer can make sense of whatever it is given. */
  ghost predicate AlwaysMeasures<R(!new)>(measure: R -> Measurement) {
    forall r :: IsValid(measure(r))
  }

  /** With such a measurer a page is served exactly if some cut fits, and then the longest. */
  lemma FittedExactly<R(!new)>(
    ms: seq<PublicMessage>, keepNewest: bool, build: seq<PublicMessage> -> R, measure: R -> Measurement)
    returns (k: nat)
    requires AlwaysMeasures(measure)
    ensures var f := Fit(ms, keepNewest, build, measure);
            && (f.Page? <==> exists j :: IsCandidate(ms, j) && Fits(ms, keepNewest, build, measure, j))
            && (f.Page? ==> IsCandidate(ms, k) && Fits(ms, keepNewest, build, measure, k)
                            && f.response == build(Cut(ms, keepNewest, k)))
            && (f.Page? ==> forall j :: k < j <= |ms| ==> !Fits(ms, keepNewest, build, measure, j))
  {
    FitIsLongest(ms, keepNewest, build, measure);
    k := FittedIsCandidate(ms, keepNewest, build, measure);
    match Fit(ms, keepNewest, build, measure) {
      case Page(r, bytes) =>
        k :| 0 <= k <= |ms| && (ms != [] ==> 0 < k) && FirstCandidate(ms, keepNewest, build, measure, k)
             && Fits(ms, keepNewest, build, measure, k) && r == build(Cut(ms, keepNewest, k));
        forall j | k < j <= |ms| ensures !Fits(ms, keepNewest, build, measure, j) {
          assert TooLong(ms, keepNewest, build, measure, j);
        }
      case OversizedRow(m) =>
        forall j | IsCandidate(ms, j) ensures !Fits(ms, keepNewest, build, measure, j) {
          assert TooLong(ms, keepNewest, build, measure, j);
        }
      case InvalidEnvelopeMeasurement =>
        assert ms == [] && TooLong(ms, keepNewest, build, measure, 0);
    }
  }

  /** The whole page is measured first; a size that is negative or unsafe makes no sense. */
  lemma MeasuredFirst<R>(
    ms: seq<PublicMessage>, keepNewest: bool, build: seq<PublicMessage> -> R, measure: R -> Measurement)
    ensures var m, f := measure(build(ms)), Fit(ms, keepNewest, build, measure);
            && (m.utf8ByteLength < 0 || m.utf8ByteLength >= 0x20_0000_0000_0000 ==> f == InvalidEnvelopeMeasurement)
            && (0 <= m.utf8ByteLength < 0x20_0000_0000_0000 && m.isWithinLimit ==>
                  f == Page(build(ms), m.utf8ByteLength))
  {
  }

  // --- Sync ---

  predicate IsSyncRequest(after: Sequence, through: Option<Sequence>, limit: int) {
    && 0 <= after && 1 <= limit <= 100
    && (through.Some? ==> 0 <= through.value && after <= through.value)
  }

  /** There is nothing to read, or not for this reader. */
  predicate IsWithheld(earlier: Db, t: Target, allowed: bool) {
    !allowed || (t.Thread? && t !in earlier.streams)
  }

  /** The page with the next `k` messages after the cursor. */
  ghost predicate IsSyncPage(db: Db, t: Target, after: Sequence, T: Sequence, k: nat, r: SyncResponse) {
    && r.streamId == CanonicalStreamId(t) && r.afterSequence == after && r.throughSequence == T
    && |r.messages| == k && ShowsPlaces(db, t, r.messages, after + 1)
    && r.nextAfterSequence == (if k == 0 then T else after + k)
    && r.hasMoreAfter == (k > 0 && after + k < T)
  }

  /** How many messages a page may have, if there are `n` to read: one at least, if there is any. */
  predicate IsPageLength(n: int, k: nat) {
    k <= n && (n > 0 ==> k > 0)
  }

  lemma SyncPageIsOne(db: Db, t: Target, after: Sequence, T: Sequence, k: nat, a: SyncResponse, b: SyncResponse)
    requires Valid(db) && IsSyncPage(db, t, after, T, k, a) && IsSyncPage(db, t, after, T, k, b)
    ensures a == b
  {
    PlacesShowOne(db, t, a.messages, b.messages, after + 1);
  }

  lemma BuiltSyncPage(db: Db, t: Target, rows: seq<Row>, after: Sequence, T: Sequence, n: nat, k: nat)
    requires Valid(db) && IsStretch(db, t, rows, after + 1, after + n) && AllParse(rows)
    requires IsPageLength(n, k) && n <= T - after && (n == 0 ==> after == T)
    ensures IsCandidate(PublicMessages(rows), k)
    ensures IsSyncPage(db, t, after, T, k, BuildSync(t, after, T)(Cut(PublicMessages(rows), false, k)))
  {
    CutShows(db, t, rows, after + 1, after + n, false, k);
    assert k > 0 ==> ShowsPlace(db, t, Cut(PublicMessages(rows), false, k)[k - 1], after + k);
  }

  /** With a request and a reader that are in order, and a cursor within the head: the longest page that fits. */
  ghost predicate IsLongestSyncPage(
    db: Db, t: Target, after: Sequence, T: Sequence, n: int, measure: SyncResponse -> Measurement, r: SyncResponse)
  {
    exists k: nat :: IsPageLength(n, k) && IsSyncPage(db, t, after, T, k, r) && measure(r).isWithinLimit
      && forall j: nat, q :: k < j <= n && IsSyncPage(db, t, after, T, j, q) ==> !measure(q).isWithinLimit
  }

  ghost predicate SomeSyncPageFits(
    db: Db, t: Target, after: Sequence, T: Sequence, n: int, measure: SyncResponse -> Measurement)
  {
    exists k: nat, r :: IsPageLength(n, k) && IsSyncPage(db, t, after, T, k, r) && measure(r).isWithinLimit
  }

  /** If the page with `j` messages fits, then so does the cut of that length. */
  lemma SyncCutFits(db: Db, t: Target, rows: seq<Row>, after: Sequence, T: Sequence, n: nat,
                    measure: SyncResponse -> Measurement, j: nat, q: SyncResponse)
    requires Valid(db) && IsStretch(db, t, rows, after + 1, after + n) && AllParse(rows) && AlwaysMeasures(measure)
    requires n <= T - after && (n == 0 ==> after == T) && IsPageLength(n, j) && IsSyncPage(db, t, after, T, j, q)
    ensures |rows| == n && IsCandidate(PublicMessages(rows), j)
    ensures Fits(PublicMessages(rows), false, BuildSync(t, after, T), measure, j) <==> measure(q).isWithinLimit
  {
    BuiltSyncPage(db, t, rows, after, T, n, j);
    SyncPageIsOne(db, t, after, T, j, q, BuildSync(t, after, T)(Cut(PublicMessages(rows), false, j)));
  }

  lemma SyncServesLongest(db: Db, t: Target, rows: seq<Row>, after: Sequence, T: Sequence, n: nat,
                          measure: SyncResponse -> Measurement)
    requires Valid(db) && IsStretch(db, t, rows, after + 1, after + n) && AllParse(rows) && AlwaysMeasures(measure)
    requires n <= T - after && (n == 0 ==> after == T)
    ensures var s := FitRows(rows, false, BuildSync(t, after, T), measure);
            s.ServedPage? ==>
              && SomeSyncPageFits(db, t, after, T, n, measure)
              && IsLongestSyncPage(db, t, after, T, n, measure, s.response)
  {
    var ms, build := PublicMessages(rows), BuildSync(t, after, T);
    var s := FitRows(rows, false, build, measure);
    var k := FittedExactly(ms, false, build, measure);
    if s.ServedPage? {
      BuiltSyncPage(db, t, rows, after, T, n, k);
      forall j: nat, q | k < j <= n && IsSyncPage(db, t, after, T, j, q) ensures !measure(q).isWithinLimit {
        SyncCutFits(db, t, rows, after, T, n, measure, j, q);
      }
    }
  }

  lemma SyncServesIfSomeFits(db: Db, t: Target, rows: seq<Row>, after: Sequence, T: Sequence, n: nat,
                             measure: SyncResponse -> Measurement)
    requires Valid(db) && IsStretch(db, t, rows, after + 1, after + n) && AllParse(rows) && AlwaysMeasures(measure)
    requires n <= T - after && (n == 0 ==> after == T)
    ensures SomeSyncPageFits(db, t, after, T, n, measure) ==>
              FitRows(rows, false, BuildSync(t, after, T), measure).ServedPage?
  {
    var ms, build := PublicMessages(rows), BuildSync(t, after, T);
    var k := FittedExactly(ms, false, build, measure);
    if SomeSyncPageFits(db, t, after, T, n, measure) {
      var j: nat, q :| IsPageLength(n, j) && IsSyncPage(db, t, after, T, j, q) && measure(q).isWithinLimit;
      SyncCutFits(db, t, rows, after, T, n, measure, j, q);
    }
  }

  lemma SyncFitsExactly(db: Db, t: Target, rows: seq<Row>, after: Sequence, T: Sequence, n: nat,
                        measure: SyncResponse -> Measurement)
    requires Valid(db) && IsStretch(db, t, rows, after + 1, after + n) && AllParse(rows) && AlwaysMeasures(measure)
    requires n <= T - after && (n == 0 ==> after == T)
    ensures var s := FitRows(rows, false, BuildSync(t, after, T), measure);
            && (s.ServedPage? <==> SomeSyncPageFits(db, t, after, T, n, measure))
            && (s.ServedPage? ==> IsLongestSyncPage(db, t, after, T, n, measure, s.response))
  {
    SyncServesLongest(db, t, rows, after, T, n, measure);
    SyncServesIfSomeFits(db, t, rows, after, T, n, measure);
  }

  /** What is refused before anything is read. */
  lemma SyncTurnsAway(earlier: Db, db: Db, t: Target, allowed: bool, after: Sequence, through: Option<Sequence>,
                      limit: int, measure: SyncResponse -> Measurement)
    requires Valid(earlier)
    ensures var s := SyncAfter(earlier, db, t, allowed, after, through, limit, measure);
            if !IsSyncRequest(after, through, limit) then s == BadRequest
            else if IsWithheld(earlier, t, allowed) then s == StreamUnavailable
            else match ReadAfter(db, t, after, through, limit)
              case InvalidCursor => s == CursorInvalid
              case ReadFailed(e) => s == Failed(e)
              case Read(rows, T) => s == FitRows(rows, false, BuildSync(t, after, T), measure)
  {
    ThreadsResolve(earlier, t);
  }

  lemma SyncCursorIsInvalid(db: Db, t: Target, after: Sequence, through: Option<Sequence>, limit: nat)
    requires IsSyncRequest(after, through, limit)
    ensures ReadAfter(db, t, after, through, limit) == InvalidCursor <==>
            after > Head(db, t) || (through.Some? && through.value > Head(db, t))
  {
  }

  /** What is read otherwise: the next rows, unless cursor or watermark lie beyond the head. */
  lemma SyncReads(db: Db, t: Target, after: Sequence, through: Option<Sequence>, limit: nat)
    requires Valid(db) && IsSyncRequest(after, through, limit)
    ensures var T := if through.Some? then through.value else Head(db, t);
            var r := ReadAfter(db, t, after, through, limit);
            if after > Head(db, t) || T > Head(db, t) then r == InvalidCursor
            else
              && r.Read? && r.throughSequence == T && AllParse(r.rows)
              && IsStretch(db, t, r.rows, after + 1, after + Min(T - after, limit))
  {
    SyncCursorIsInvalid(db, t, after, through, limit);
    ReadAfterIsStretch(db, t, after, through, limit);
    var r := ReadAfter(db, t, after, through, limit);
    if r.Read? {
      StretchParses(db, t, r.rows, after + 1, after + Min(r.throughSequence - after, limit));
    }
  }

  /** What is read is served, or there is no page that could be. */
  lemma FitRowsAnswers<R>(rows: seq<Row>, keepNewest: bool, build: seq<PublicMessage> -> R, measure: R -> Measurement)
    requires AllParse(rows)
    ensures var s := FitRows(rows, keepNewest, build, measure); s.ServedPage? || s.NotMeasured? || s.Oversized?
  {
  }

  lemma SyncFitAnswers(db: Db, t: Target, rows: seq<Row>, after: Sequence, T: Sequence, n: nat,
                       measure: SyncResponse -> Measurement)
    requires Valid(db) && IsStretch(db, t, rows, after + 1, after + n) && AllParse(rows)
    requires n <= T - after && (n == 0 ==> after == T)
    ensures var s := FitRows(rows, false, BuildSync(t, after, T), measure);
            && (s.ServedPage? || s.NotMeasured? || s.Oversized?)
            && (AlwaysMeasures(measure) ==>
                  && (s.ServedPage? <==> SomeSyncPageFits(db, t, after, T, n, measure))
                  && (s.ServedPage? ==> IsLongestSyncPage(db, t, after, T, n, measure, s.response)))
  {
    FitRowsAnswers(rows, false, BuildSync(t, after, T), measure);
    if AlwaysMeasures(measure) {
      SyncFitsExactly(db, t, rows, after, T, n, measure);
    }
  }

  /** The answer to a request and a reader that are in order, if cursor and watermark are within the head. */
  ghost predicate IsSyncAnswer(db: Db, t: Target, after: Sequence, T: Sequence, n: int,
                               measure: SyncResponse -> Measurement, s: Served<SyncResponse>)
  {
    && (s.ServedPage? || s.NotMeasured? || s.Oversized?)
    && (AlwaysMeasures(measure) ==>
          && (s.ServedPage? <==> SomeSyncPageFits(db, t, after, T, n, measure))
          && (s.ServedPage? ==> IsLongestSyncPage(db, t, after, T, n, measure, s.response)))
  }

  lemma SyncServes(earlier: Db, db: Db, t: Target, allowed: bool, after: Sequence, through: Option<Sequence>,
                   limit: int, measure: SyncResponse -> Measurement)
    requires Valid(earlier) && Valid(db)
    requires IsSyncRequest(after, through, limit) && !IsWithheld(earlier, t, allowed) && after <= Head(db, t)
    requires through.Some? ==> through.value <= Head(db, t)
    ensures var T := if through.Some? then through.value else Head(db, t);
            IsSyncAnswer(db, t, after, T, Min(T - after, limit), measure,
                         SyncAfter(earlier, db, t, allowed, after, through, limit, measure))
  {
    SyncTurnsAway(earlier, db, t, allowed, after, through, limit, measure);
    SyncReads(db, t, after, through, limit);
    var r := ReadAfter(db, t, after, through, limit);
    SyncFitAnswers(db, t, r.rows, after, r.throughSequence, Min(r.throughSequence - after, limit), measure);
  }

  lemma SyncRefusesCursor(earlier: Db, db: Db, t: Target, allowed: bool, after: Sequence, through: Option<Sequence>,
                          limit: int, measure: SyncResponse -> Measurement)
    requires Valid(earlier) && IsSyncRequest(after, through, limit) && !IsWithheld(earlier, t, allowed)
    requires after > Head(db, t) || (through.Some? && through.value > Head(db, t))
    ensures SyncAfter(earlier, db, t, allowed, after, through, limit, measure) == CursorInvalid
  {
    SyncTurnsAway(earlier, db, t, allowed, after, through, limit, measure);
    SyncCursorIsInvalid(db, t, after, through, limit);
  }

  /**
   * The sync query refuses a malformed request, then withholds what does not exist or may not be read,
   * then refuses a cursor or watermark beyond the head; and otherwise serves the longest page that
   * fits, if one does. To a client that has caught up that is the empty, final page.
   */
  lemma SyncAnswers(earlier: Db, db: Db, t: Target, allowed: bool, after: Sequence, through: Option<Sequence>,
                    limit: int, measure: SyncResponse -> Measurement)
    requires Valid(earlier) && Valid(db) && Grows(earlier, db)
    ensures var s := SyncAfter(earlier, db, t, allowed, after, through, limit, measure);
            var T := if through.Some? then through.value else Head(db, t);
            if !IsSyncRequest(after, through, limit) then s == BadRequest
            else if IsWithheld(earlier, t, allowed) then s == StreamUnavailable
            else if after > Head(db, t) || T > Head(db, t) then s == CursorInvalid
            else IsSyncAnswer(db, t, after, T, if T - after < limit then T - after else limit, measure, s)
  {
    if !IsSyncRequest(after, through, limit) || IsWithheld(earlier, t, allowed) {
      SyncTurnsAway(earlier, db, t, allowed, after, through, limit, measure);
    } else if after > Head(db, t) || (through.Some? && through.value > Head(db, t)) {
      SyncRefusesCursor(earlier, db, t, allowed, after, through, limit, measure);
    } else {
      SyncServes(earlier, db, t, allowed, after, through, limit, measure);
    }
  }

  /** A client that has caught up is told so: the empty, final page. */
  lemma CaughtUpIsTold(earlier: Db, db: Db, t: Target, limit: int, measure: SyncResponse -> Measurement)
    requires Valid(earlier) && Valid(db) && Grows(earlier, db) && 1 <= limit <= 100
    requires !IsWithheld(earlier, t, true) && AlwaysMeasures(measure)
    requires var head := Head(db, t);
             measure(SyncResponse(CanonicalStreamId(t), head, head, [], head, false)).isWithinLimit
    ensures var head := Head(db, t);
            SyncAfter(earlier, db, t, true, head, None, limit, measure)
            == ServedPage(SyncResponse(CanonicalStreamId(t), head, head, [], head, false))
  {
    var head := Head(db, t);
    var page := SyncResponse(CanonicalStreamId(t), head, head, [], head, false);
    ReadLatestIsStretch(db, t);
    SyncAnswers(earlier, db, t, true, head, None, limit, measure);
    assert IsPageLength(0, 0) && IsSyncPage(db, t, head, head, 0, page);
    var s := SyncAfter(earlier, db, t, true, head, None, limit, measure);
    var k: nat :| IsPageLength(0, k) && IsSyncPage(db, t, head, head, k, s.response);
    SyncPageIsOne(db, t, head, head, 0, s.response, page);
  }

  // --- Older ---

  /** The page with the `k` messages right before the cursor. */
  ghost predicate IsOlderPage(db: Db, t: Target, before: Sequence, k: nat, r: OlderResponse) {
    && r.streamId == CanonicalStreamId(t) && r.beforeSequence == before
    && |r.messages| == k && ShowsPlaces(db, t, r.messages, before - k)
    && r.nextBeforeSequence == (if k == 0 then None else Some(before - k))
    && r.hasMoreBefore == (k > 0 && before - k > 1)
  }

  lemma OlderPageIsOne(db: Db, t: Target, before: Sequence, k: nat, a: OlderResponse, b: OlderResponse)
    requires Valid(db) && IsOlderPage(db, t, before, k, a) && IsOlderPage(db, t, before, k, b)
    ensures a == b
  {
    PlacesShowOne(db, t, a.messages, b.messages, before - k);
  }

  lemma BuiltOlderPage(db: Db, t: Target, rows: seq<Row>, before: Sequence, n: nat, k: nat)
    requires Valid(db) && IsStretch(db, t, rows, before - n, before - 1) && AllParse(rows) && IsPageLength(n, k)
    ensures IsCandidate(PublicMessages(rows), k)
    ensures IsOlderPage(db, t, before, k, BuildOlder(t, before)(Cut(PublicMessages(rows), true, k)))
  {
    CutShows(db, t, rows, before - n, before - 1, true, k);
    assert k > 0 ==> ShowsPlace(db, t, Cut(PublicMessages(rows), true, k)[0], before - k);
  }

  ghost predicate IsLongestOlderPage(
    db: Db, t: Target, before: Sequence, n: int, measure: OlderResponse -> Measurement, r: OlderResponse)
  {
    exists k: nat :: IsPageLength(n, k) && IsOlderPage(db, t, before, k, r) && measure(r).isWithinLimit
      && forall j: nat, q :: k < j <= n && IsOlderPage(db, t, before, j, q) ==> !measure(q).isWithinLimit
  }

  ghost predicate SomeOlderPageFits(db: Db, t: Target, before: Sequence, n: int,
                                    measure: OlderResponse -> Measurement)
  {
    exists k: nat, r :: IsPageLength(n, k) && IsOlderPage(db, t, before, k, r) && measure(r).isWithinLimit
  }

  lemma OlderCutFits(db: Db, t: Target, rows: seq<Row>, before: Sequence, n: nat, measure: OlderResponse -> Measurement,
                     j: nat, q: OlderResponse)
    requires Valid(db) && IsStretch(db, t, rows, before - n, before - 1) && AllParse(rows) && AlwaysMeasures(measure)
    requires IsPageLength(n, j) && IsOlderPage(db, t, before, j, q)
    ensures |rows| == n && IsCandidate(PublicMessages(rows), j)
    ensures Fits(PublicMessages(rows), true, BuildOlder(t, before), measure, j) <==> measure(q).isWithinLimit
  {
    BuiltOlderPage(db, t, rows, before, n, j);
    OlderPageIsOne(db, t, before, j, q, BuildOlder(t, before)(Cut(PublicMessages(rows), true, j)));
  }

  lemma OlderServesLongest(db: Db, t: Target, rows: seq<Row>, before: Sequence, n: nat,
                           measure: OlderResponse -> Measurement)
    requires Valid(db) && IsStretch(db, t, rows, before - n, before - 1) && AllParse(rows) && AlwaysMeasures(measure)
    ensures var s := FitRows(rows, true, BuildOlder(t, before), measure);
            s.ServedPage? ==>
              SomeOlderPageFits(db, t, before, n, measure) && IsLongestOlderPage(db, t, before, n, measure, s.response)
  {
    var ms, build := PublicMessages(rows), BuildOlder(t, before);
    var s := FitRows(rows, true, build, measure);
    var k := FittedExactly(ms, true, build, measure);
    if s.ServedPage? {
      BuiltOlderPage(db, t, rows, before, n, k);
      forall j: nat, q | k < j <= n && IsOlderPage(db, t, before, j, q) ensures !measure(q).isWithinLimit {
        OlderCutFits(db, t, rows, before, n, measure, j, q);
      }
    }
  }

  lemma OlderServesIfSomeFits(db: Db, t: Target, rows: seq<Row>, before: Sequence, n: nat,
                              measure: OlderResponse -> Measurement)
    requires Valid(db) && IsStretch(db, t, rows, before - n, before - 1) && AllParse(rows) && AlwaysMeasures(measure)
    ensures SomeOlderPageFits(db, t, before, n, measure) ==>
              FitRows(rows, true, BuildOlder(t, before), measure).ServedPage?
  {
    var ms, build := PublicMessages(rows), BuildOlder(t, before);
    var k := FittedExactly(ms, true, build, measure);
    if SomeOlderPageFits(db, t, before, n, measure) {
      var j: nat, q :| IsPageLength(n, j) && IsOlderPage(db, t, before, j, q) && measure(q).isWithinLimit;
      OlderCutFits(db, t, rows, before, n, measure, j, q);
    }
  }

  lemma OlderFitsExactly(db: Db, t: Target, rows: seq<Row>, before: Sequence, n: nat,
                         measure: OlderResponse -> Measurement)
    requires Valid(db) && IsStretch(db, t, rows, before - n, before - 1) && AllParse(rows) && AlwaysMeasures(measure)
    ensures var s := FitRows(rows, true, BuildOlder(t, before), measure);
            && (s.ServedPage? <==> SomeOlderPageFits(db, t, before, n, measure))
            && (s.ServedPage? ==> IsLongestOlderPage(db, t, before, n, measure, s.response))
  {
    OlderServesLongest(db, t, rows, before, n, measure);
    OlderServesIfSomeFits(db, t, rows, before, n, measure);
  }

  lemma OlderTurnsAway(earlier: Db, db: Db, t: Target, allowed: bool, before: Sequence, limit: int,
                       measure: OlderResponse -> Measurement)
    requires Valid(earlier)
    ensures var s := LoadOlder(earlier, db, t, allowed, before, limit, measure);
            if before < 1 || limit < 1 || limit > 100 then s == BadRequest
            else if IsWithheld(earlier, t, allowed) then s == StreamUnavailable
            else match ReadOlder(db, t, before, limit)
              case InvalidCursor => s == CursorInvalid
              case ReadFailed(e) => s == Failed(e)
              case Read(rows, _) => s == FitRows(rows, true, BuildOlder(t, before), measure)
  {
    ThreadsResolve(earlier, t);
  }

  lemma OlderReads(db: Db, t: Target, before: Sequence, limit: nat)
    requires Valid(db) && before >= 1 && limit >= 1
    ensures var r := ReadOlder(db, t, before, limit);
            if before > Head(db, t) + 1 then r == InvalidCursor
            else r.Read? && AllParse(r.rows) && IsStretch(db, t, r.rows, before - Min(before - 1, limit), before - 1)
  {
    ReadOlderIsStretch(db, t, before, limit);
    var r := ReadOlder(db, t, before, limit);
    if r.Read? {
      StretchParses(db, t, r.rows, before - Min(before - 1, limit), before - 1);
    }
  }

  /** The older query, in the same order; the cursor may be one place beyond the head. */
  lemma OlderAnswers(earlier: Db, db: Db, t: Target, allowed: bool, before: Sequence, limit: int,
                     measure: OlderResponse -> Measurement)
    requires Valid(earlier) && Valid(db) && Grows(earlier, db)
    ensures var s := LoadOlder(earlier, db, t, allowed, before, limit, measure);
            if before < 1 || limit < 1 || limit > 100 then s == BadRequest
            else if IsWithheld(earlier, t, allowed) then s == StreamUnavailable
            else if before > Head(db, t) + 1 then s == CursorInvalid
            else
              var n := if before - 1 < limit then before - 1 else limit;
              && (s.ServedPage? || s.NotMeasured? || s.Oversized?)
              && (AlwaysMeasures(measure) ==>
                    && (s.ServedPage? <==> SomeOlderPageFits(db, t, before, n, measure))
                    && (s.ServedPage? ==> IsLongestOlderPage(db, t, before, n, measure, s.response)))
  {
    OlderTurnsAway(earlier, db, t, allowed, before, limit, measure);
    if before >= 1 && 1 <= limit <= 100 && !IsWithheld(earlier, t, allowed) {
      OlderReads(db, t, before, limit);
      var r := ReadOlder(db, t, before, limit);
      if r.Read? {
        FitRowsAnswers(r.rows, true, BuildOlder(t, before), measure);
        if AlwaysMeasures(measure) {
          OlderFitsExactly(db, t, r.rows, before, Min(before - 1, limit), measure);
        }
      }
    }
  }

  // --- Latest ---

  /** The page with the last `k` messages. */
  ghost predicate IsLatestPage(db: Db, t: Target, k: nat, r: LatestResponse) {
    var head := Head(db, t);
    && r.streamId == CanonicalStreamId(t) && r.throughSequence == head
    && |r.messages| == k && ShowsPlaces(db, t, r.messages, head + 1 - k)
    && r.nextBeforeSequence == (if k == 0 then None else Some(head + 1 - k))
    && r.hasMoreBefore == (k > 0 && head + 1 - k > 1)
  }

  lemma LatestPageIsOne(db: Db, t: Target, k: nat, a: LatestResponse, b: LatestResponse)
    requires Valid(db) && IsLatestPage(db, t, k, a) && IsLatestPage(db, t, k, b)
    ensures a == b
  {
    PlacesShowOne(db, t, a.messages, b.messages, Head(db, t) + 1 - k);
  }

  lemma BuiltLatestPage(db: Db, t: Target, rows: seq<Row>, n: nat, k: nat)
    requires Valid(db) && IsStretch(db, t, rows, Head(db, t) + 1 - n, Head(db, t))
    requires AllParse(rows) && IsPageLength(n, k)
    ensures IsCandidate(PublicMessages(rows), k)
    ensures IsLatestPage(db, t, k, BuildLatest(t, Head(db, t))(Cut(PublicMessages(rows), true, k)))
  {
    CutShows(db, t, rows, Head(db, t) + 1 - n, Head(db, t), true, k);
    assert k > 0 ==> ShowsPlace(db, t, Cut(PublicMessages(rows), true, k)[0], Head(db, t) + 1 - k);
  }

  ghost predicate IsLongestLatestPage(
    db: Db, t: Target, n: int, measure: LatestResponse -> Measurement, r: LatestResponse)
  {
    exists k: nat :: IsPageLength(n, k) && IsLatestPage(db, t, k, r) && measure(r).isWithinLimit
      && forall j: nat, q :: k < j <= n && IsLatestPage(db, t, j, q) ==> !measure(q).isWithinLimit
  }

  ghost predicate SomeLatestPageFits(db: Db, t: Target, n: int, measure: LatestResponse -> Measurement) {
    exists k: nat, r :: IsPageLength(n, k) && IsLatestPage(db, t, k, r) && measure(r).isWithinLimit
  }

  lemma LatestCutFits(db: Db, t: Target, rows: seq<Row>, n: nat, measure: LatestResponse -> Measurement,
                      j: nat, q: LatestResponse)
    requires Valid(db) && IsStretch(db, t, rows, Head(db, t) + 1 - n, Head(db, t))
    requires AllParse(rows) && AlwaysMeasures(measure) && IsPageLength(n, j) && IsLatestPage(db, t, j, q)
    ensures |rows| == n && IsCandidate(PublicMessages(rows), j)
    ensures Fits(PublicMessages(rows), true, BuildLatest(t, Head(db, t)), measure, j) <==> measure(q).isWithinLimit
  {
    BuiltLatestPage(db, t, rows, n, j);
    LatestPageIsOne(db, t, j, q, BuildLatest(t, Head(db, t))(Cut(PublicMessages(rows), true, j)));
  }

  lemma LatestServesLongest(db: Db, t: Target, rows: seq<Row>, n: nat, measure: LatestResponse -> Measurement)
    requires Valid(db) && IsStretch(db, t, rows, Head(db, t) + 1 - n, Head(db, t))
    requires AllParse(rows) && AlwaysMeasures(measure)
    ensures var s := FitRows(rows, true, BuildLatest(t, Head(db, t)), measure);
            s.ServedPage? ==>
              SomeLatestPageFits(db, t, n, measure) && IsLongestLatestPage(db, t, n, measure, s.response)
  {
    var ms, build := PublicMessages(rows), BuildLatest(t, Head(db, t));
    var s := FitRows(rows, true, build, measure);
    var k := FittedExactly(ms, true, build, measure);
    if s.ServedPage? {
      BuiltLatestPage(db, t, rows, n, k);
      forall j: nat, q | k < j <= n && IsLatestPage(db, t, j, q) ensures !measure(q).isWithinLimit {
        LatestCutFits(db, t, rows, n, measure, j, q);
      }
    }
  }

  lemma LatestServesIfSomeFits(db: Db, t: Target, rows: seq<Row>, n: nat, measure: LatestResponse -> Measurement)
    requires Valid(db) && IsStretch(db, t, rows, Head(db, t) + 1 - n, Head(db, t))
    requires AllParse(rows) && AlwaysMeasures(measure)
    ensures SomeLatestPageFits(db, t, n, measure) ==>
              FitRows(rows, true, BuildLatest(t, Head(db, t)), measure).ServedPage?
  {
    var ms, build := PublicMessages(rows), BuildLatest(t, Head(db, t));
    var k := FittedExactly(ms, true, build, measure);
    if SomeLatestPageFits(db, t, n, measure) {
      var j: nat, q :| IsPageLength(n, j) && IsLatestPage(db, t, j, q) && measure(q).isWithinLimit;
      LatestCutFits(db, t, rows, n, measure, j, q);
    }
  }

  lemma LatestFitsExactly(db: Db, t: Target, rows: seq<Row>, n: nat, measure: LatestResponse -> Measurement)
    requires Valid(db) && IsStretch(db, t, rows, Head(db, t) + 1 - n, Head(db, t))
    requires AllParse(rows) && AlwaysMeasures(measure)
    ensures var s := FitRows(rows, true, BuildLatest(t, Head(db, t)), measure);
            && (s.ServedPage? <==> SomeLatestPageFits(db, t, n, measure))
            && (s.ServedPage? ==> IsLongestLatestPage(db, t, n, measure, s.response))
  {
    LatestServesLongest(db, t, rows, n, measure);
    LatestServesIfSomeFits(db, t, rows, n, measure);
  }

  /** The answer to a reader that is in order. */
  ghost predicate IsLatestAnswer(db: Db, t: Target, n: int, measure: LatestResponse -> Measurement,
                                 s: Served<LatestResponse>)
  {
    && (s.ServedPage? || s.NotMeasured? || s.Oversized?)
    && (AlwaysMeasures(measure) ==>
          && (s.ServedPage? <==> SomeLatestPageFits(db, t, n, measure))
          && (s.ServedPage? ==> IsLongestLatestPage(db, t, n, measure, s.response)))
  }

  lemma LatestTurnsAway(earlier: Db, db: Db, t: Target, allowed: bool, measure: LatestResponse -> Measurement)
    requires Valid(earlier) && Valid(db)
    ensures ReadLatest(db, t).Read?
    ensures var s := LoadLatest(earlier, db, t, allowed, measure);
            if IsWithheld(earlier, t, allowed) then s == StreamUnavailable
            else s == FitRows(ReadLatest(db, t).rows, true, BuildLatest(t, Head(db, t)), measure)
  {
    ThreadsResolve(earlier, t);
    ReadLatestIsStretch(db, t);
  }

  lemma LatestFitAnswers(db: Db, t: Target, rows: seq<Row>, n: nat, measure: LatestResponse -> Measurement)
    requires Valid(db) && IsStretch(db, t, rows, Head(db, t) + 1 - n, Head(db, t)) && AllParse(rows)
    ensures IsLatestAnswer(db, t, n, measure, FitRows(rows, true, BuildLatest(t, Head(db, t)), measure))
  {
    FitRowsAnswers(rows, true, BuildLatest(t, Head(db, t)), measure);
    if AlwaysMeasures(measure) {
      LatestFitsExactly(db, t, rows, n, measure);
    }
  }

  /** The latest query takes any request: the last five messages, or as many of them as fit. */
  lemma LatestAnswers(earlier: Db, db: Db, t: Target, allowed: bool, measure: LatestResponse -> Measurement)
    requires Valid(earlier) && Valid(db) && Grows(earlier, db)
    ensures var s := LoadLatest(earlier, db, t, allowed, measure);
            if IsWithheld(earlier, t, allowed) then s == StreamUnavailable
            else IsLatestAnswer(db, t, if Head(db, t) < 5 then Head(db, t) else 5, measure, s)
  {
    LatestTurnsAway(earlier, db, t, allowed, measure);
    ReadLatestIsStretch(db, t);
    var rows, n := ReadLatest(db, t).rows, Min(Head(db, t), 5);
    StretchParses(db, t, rows, Head(db, t) + 1 - n, Head(db, t));
    LatestFitAnswers(db, t, rows, n, measure);
  }
}
