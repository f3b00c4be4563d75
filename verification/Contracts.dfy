/** The response contracts that server and client share, as predicates over whole pages. */
module Contracts {
  import opened Messages

  const MAX_LATEST_STREAM_MESSAGES := 5
  const MAX_STREAM_MESSAGES_PAGE_LIMIT := 100

  datatype LatestResponse = LatestResponse(
    streamId: string,
    throughSequence: Sequence,
    messages: seq<PublicMessage>,
    nextBeforeSequence: Option<Sequence>,
    hasMoreBefore: bool)

  datatype OlderResponse = OlderResponse(
    streamId: string,
    beforeSequence: Sequence,
    messages: seq<PublicMessage>,
    nextBeforeSequence: Option<Sequence>,
    hasMoreBefore: bool)

  datatype SyncResponse = SyncResponse(
    streamId: string,
    afterSequence: Sequence,
    throughSequence: Sequence,
    messages: seq<PublicMessage>,
    nextAfterSequence: Sequence,
    hasMoreAfter: bool)

  predicate BelongsTo(m: PublicMessage, streamId: string) {
    m.streamId == streamId && streamId == CanonicalStreamId(m.target)
  }

  /** A page is one unbroken ascending stretch of a single stream. */
  predicate ValidPageMessages(ms: seq<PublicMessage>, streamId: string) {
    && (forall i :: 0 <= i < |ms| ==> BelongsTo(ms[i], streamId))
    && (forall i :: 0 <= i < |ms| ==> ms[i].sequence == ms[0].sequence + i)
  }

  /** The validation loop accepts exactly the unbroken stretches of the stream. */
  method ValidatePageMessages(ms: seq<PublicMessage>, streamId: string) returns (ok: bool)
    ensures ok <==> ValidPageMessages(ms, streamId)
  {
    var previous: Option<Sequence> := None;
    for i := 0 to |ms|
      invariant forall j :: 0 <= j < i ==> BelongsTo(ms[j], streamId)
      invariant forall j :: 0 <= j < i ==> ms[j].sequence == ms[0].sequence + j
      invariant previous == if i == 0 then None else Some(ms[i - 1].sequence)
    {
      if ms[i].streamId != streamId {
        return false;
      }
      if ms[i].streamId != CanonicalStreamId(ms[i].target) {
        return false;
      }
      if previous.Some? && ms[i].sequence != previous.value + 1 {
        return false;
      }
      previous := Some(ms[i].sequence);
    }
    return true;
  }

  predicate LatestContract(r: LatestResponse) {
    && r.throughSequence >= 0
    && |r.messages| <= MAX_LATEST_STREAM_MESSAGES
    && ValidPageMessages(r.messages, r.streamId)
    && if r.messages == [] then
         r.nextBeforeSequence == None && !r.hasMoreBefore && r.throughSequence == 0
       else
         var oldest := r.messages[0].sequence;
         && oldest >= 1
         && r.nextBeforeSequence == Some(oldest)
         && r.hasMoreBefore == (oldest > 1)
         && r.messages[|r.messages| - 1].sequence == r.throughSequence
  }

  predicate OlderContract(r: OlderResponse) {
    && r.beforeSequence >= 1
    && |r.messages| <= MAX_STREAM_MESSAGES_PAGE_LIMIT
    && ValidPageMessages(r.messages, r.streamId)
    && if r.messages == [] then
         r.nextBeforeSequence == None && !r.hasMoreBefore && r.beforeSequence == 1
       else
         var oldest := r.messages[0].sequence;
         && oldest >= 1
         && (forall i :: 0 <= i < |r.messages| ==> r.messages[i].sequence < r.beforeSequence)
         && r.nextBeforeSequence == Some(oldest)
         && r.messages[|r.messages| - 1].sequence == r.beforeSequence - 1
         && r.hasMoreBefore == (oldest > 1)
  }

  predicate SyncContract(r: SyncResponse) {
    && r.afterSequence >= 0
    && |r.messages| <= MAX_STREAM_MESSAGES_PAGE_LIMIT
    && ValidPageMessages(r.messages, r.streamId)
    && r.afterSequence <= r.throughSequence
    && (forall i :: 0 <= i < |r.messages| ==> r.afterSequence < r.messages[i].sequence <= r.throughSequence)
    && if r.messages == [] then
         r.afterSequence == r.throughSequence && r.nextAfterSequence == r.throughSequence && !r.hasMoreAfter
       else
         && r.messages[0].sequence == r.afterSequence + 1
         && r.nextAfterSequence == r.messages[|r.messages| - 1].sequence
         && (if r.hasMoreAfter then r.nextAfterSequence < r.throughSequence
             else r.nextAfterSequence == r.throughSequence)
  }
}
