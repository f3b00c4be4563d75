/** Turning rows into pages of the wire format that fit into one envelope. */
module PagePolicy {
  import opened Messages
  import opened Contracts
  import opened MessageStore
  import opened StreamReaders

  /** What the measurer says about a finished response; it need not be monotone in the page length. */
  datatype Measurement = Measurement(utf8ByteLength: int, isWithinLimit: bool)

  datatype Fitted<R> =
    | Page(response: R, envelopeUtf8ByteLength: int)
    | OversizedRow(message: PublicMessage)
    | InvalidEnvelopeMeasurement

  predicate IsValid(m: Measurement) {
    0 <= m.utf8ByteLength <= MAX_SAFE_INTEGER
  }

  function PublicOf(row: Row): PublicMessage
    requires Parses(row)
  {
    PublicMessage(row.messageId, CanonicalStreamId(row.target), row.sequence, row.senderActorId, row.target,
                  row.createdAt, None,
                  if row.content.None? then Tombstone(row.deletedAt.value) else Text(row.content.value, row.editedAt))
  }

  function PublicMessages(rows: seq<Row>): (ms: seq<PublicMessage>)
    requires AllParse(rows)
    ensures |ms| == |rows| && forall i :: 0 <= i < |rows| ==> ms[i] == PublicOf(rows[i])
  {
    seq(|rows|, i requires 0 <= i < |rows| => PublicOf(rows[i]))
  }

  // --- The three response builders ---

  function Oldest(ms: seq<PublicMessage>): Option<Sequence> {
    if ms == [] then None else Some(ms[0].sequence)
  }

  function BuildLatest(t: Target, through: Sequence): seq<PublicMessage> -> LatestResponse {
    (ms: seq<PublicMessage>) =>
      LatestResponse(CanonicalStreamId(t), through, ms, Oldest(ms), ms != [] && ms[0].sequence > 1)
  }

  function BuildOlder(t: Target, before: Sequence): seq<PublicMessage> -> OlderResponse {
    (ms: seq<PublicMessage>) =>
      OlderResponse(CanonicalStreamId(t), before, ms, Oldest(ms), ms != [] && ms[0].sequence > 1)
  }

  function NextAfter(through: Sequence, ms: seq<PublicMessage>): Sequence {
    if ms == [] then through else ms[|ms| - 1].sequence
  }

  function BuildSync(t: Target, after: Sequence, through: Sequence): seq<PublicMessage> -> SyncResponse {
    (ms: seq<PublicMessage>) =>
      SyncResponse(CanonicalStreamId(t), after, through, ms, NextAfter(through, ms), NextAfter(through, ms) < through)
  }

  // --- Fitting ---

  /** Drops the message farthest from the end that the page has to keep. */
  function Shrink(ms: seq<PublicMessage>, keepNewest: bool): seq<PublicMessage>
    requires ms != []
  {
    if keepNewest then ms[1..] else ms[..|ms| - 1]
  }

  function Fit<R>(ms: seq<PublicMessage>, keepNewest: bool, build: seq<PublicMessage> -> R,
                  measure: R -> Measurement): Fitted<R>
    decreases |ms|
  {
    var m := measure(build(ms));
    if !IsValid(m) then InvalidEnvelopeMeasurement
    else if m.isWithinLimit then Page(build(ms), m.utf8ByteLength)
    else if ms == [] then InvalidEnvelopeMeasurement
    else if |ms| == 1 then OversizedRow(ms[0])
    else Fit(Shrink(ms, keepNewest), keepNewest, build, measure)
  }

  method FitContiguousMessages<R>(
    input: seq<PublicMessage>, keepNewest: bool, build: seq<PublicMessage> -> R, measure: R -> Measurement)
    returns (fitted: Fitted<R>)
    ensures fitted == Fit(input, keepNewest, build, measure)
  {
    var messages := input;
    while true
      invariant Fit(messages, keepNewest, build, measure) == Fit(input, keepNewest, build, measure)
      decreases |messages|
    {
      var response := build(messages);
      var measurement := measure(response);
      if !IsValid(measurement) {
        return InvalidEnvelopeMeasurement;
      }
      if measurement.isWithinLimit {
        return Page(response, measurement.utf8ByteLength);
      }
      if |messages| == 0 {
        return InvalidEnvelopeMeasurement;
      }
      if |messages| == 1 {
        return OversizedRow(messages[0]);
      }
      messages := Shrink(messages, keepNewest);
    }
  }

  /** The `k` messages of a page that are kept when it is cut to that length. */
  function Cut(ms: seq<PublicMessage>, keepNewest: bool, k: nat): seq<PublicMessage>
    requires k <= |ms|
  {
    if keepNewest then ms[|ms| - k..] else ms[..k]
  }

  predicate Fits<R>(ms: seq<PublicMessage>, keepNewest: bool, build: seq<PublicMessage> -> R, measure: R -> Measurement,
                    k: nat)
    requires k <= |ms|
  {
    var m := measure(build(Cut(ms, keepNewest, k)));
    IsValid(m) && m.isWithinLimit
  }

  /** Measured properly and found too long. */
  predicate TooLong<R>(ms: seq<PublicMessage>, keepNewest: bool, build: seq<PublicMessage> -> R,
                       measure: R -> Measurement, k: nat)
    requires k <= |ms|
  {
    var m := measure(build(Cut(ms, keepNewest, k)));
    IsValid(m) && !m.isWithinLimit
  }

  /** All lengths above `k` are too long. */
  ghost predicate FirstCandidate<R>(
    ms: seq<PublicMessage>, keepNewest: bool, build: seq<PublicMessage> -> R, measure: R -> Measurement, k: nat)
    requires k <= |ms|
  {
    forall j :: k < j <= |ms| ==> TooLong(ms, keepNewest, build, measure, j)
  }

  /**
   * Fitting returns the longest cut that fits, whatever the measurer: it never empties a page
   * that has messages, and reports an oversized row exactly when every non-empty cut is too long.
   */
  lemma {:induction false} FitIsLongest<R>(
    ms: seq<PublicMessage>, keepNewest: bool, build: seq<PublicMessage> -> R, measure: R -> Measurement)
    ensures match Fit(ms, keepNewest, build, measure)
            case Page(r, bytes) =>
              exists k :: 0 <= k <= |ms| && (ms != [] ==> 0 < k)
                          && FirstCandidate(ms, keepNewest, build, measure, k)
                          && Fits(ms, keepNewest, build, measure, k)
                          && r == build(Cut(ms, keepNewest, k)) && bytes == measure(r).utf8ByteLength
            case OversizedRow(m) =>
              ms != [] && FirstCandidate(ms, keepNewest, build, measure, 0) && m == Cut(ms, keepNewest, 1)[0]
            case InvalidEnvelopeMeasurement =>
              || (ms == [] && TooLong(ms, keepNewest, build, measure, 0))
              || exists k :: 0 <= k <= |ms| && FirstCandidate(ms, keepNewest, build, measure, k)
                             && !IsValid(measure(build(Cut(ms, keepNewest, k))))
    ensures Fit(ms, keepNewest, build, measure).OversizedRow? <==>
            ms != [] && FirstCandidate(ms, keepNewest, build, measure, 0)
    decreases |ms|
  {
    var n := |ms|;
    assert Cut(ms, keepNewest, n) == ms;
    var m := measure(build(ms));
    if !IsValid(m) || m.isWithinLimit {
      assert FirstCandidate(ms, keepNewest, build, measure, n);
      if ms != [] {
        assert !TooLong(ms, keepNewest, build, measure, n);
      }
    } else if n > 1 {
      assert TooLong(ms, keepNewest, build, measure, n);
      FitIsLongest(Shrink(ms, keepNewest), keepNewest, build, measure);
      CandidatesOfShorter(ms, keepNewest, build, measure);
    }
  }

  lemma CandidatesOfShorter<R>(
    ms: seq<PublicMessage>, keepNewest: bool, build: seq<PublicMessage> -> R, measure: R -> Measurement)
    requires |ms| > 1 && TooLong(ms, keepNewest, build, measure, |ms|)
    ensures var shorter := Shrink(ms, keepNewest);
            forall k :: 0 <= k < |ms| ==>
              && Cut(shorter, keepNewest, k) == Cut(ms, keepNewest, k)
              && (Fits(shorter, keepNewest, build, measure, k) <==> Fits(ms, keepNewest, build, measure, k))
              && (FirstCandidate(shorter, keepNewest, build, measure, k) <==>
                  FirstCandidate(ms, keepNewest, build, measure, k))
  {
    var shorter := Shrink(ms, keepNewest);
    assert forall k :: 0 <= k < |ms| ==> Cut(shorter, keepNewest, k) == Cut(ms, keepNewest, k);
    assert forall k :: 0 <= k < |ms| ==>
        (TooLong(shorter, keepNewest, build, measure, k) <==> TooLong(ms, keepNewest, build, measure, k));
    forall k | 0 <= k < |ms|
      ensures FirstCandidate(shorter, keepNewest, build, measure, k) <==>
              FirstCandidate(ms, keepNewest, build, measure, k)
    {
      if FirstCandidate(ms, keepNewest, build, measure, k) {
        forall j | k < j <= |shorter| ensures TooLong(shorter, keepNewest, build, measure, j) {
          assert TooLong(ms, keepNewest, build, measure, j);
        }
      }
      if FirstCandidate(shorter, keepNewest, build, measure, k) {
        forall j | k < j <= |ms| ensures TooLong(ms, keepNewest, build, measure, j) {
          if j < |ms| {
            assert TooLong(shorter, keepNewest, build, measure, j);
          }
        }
      }
    }
  }
}
