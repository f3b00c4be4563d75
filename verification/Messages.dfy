/** The messages that the realtime chat stores, pages and shows, and the identity
    of the stream they belong to. */
module Messages {

  datatype Option<+T> = None | Some(value: T)

  const MAX_SAFE_INTEGER := 0x1F_FFFF_FFFF_FFFF

  /** A place in a stream: positive for messages, zero for a cursor before the first one. */
  type Sequence = int

  /** A stored message's id; the id of a thread is the id of its root message. */
  datatype MessageId = MessageId(text: string)

  // Times are integers: only their order matters.
  datatype Target = Channel(channelId: string) | Dm(dmConversationId: string) | Thread(threadId: MessageId)

  /** The browser client never opens a DM stream. */
  type ClientTarget = t: Target | !t.Dm? witness Channel("c")

  datatype Body =
    | Text(text: string, editedAt: Option<int>)
    | Tombstone(deletedAt: int)

  datatype PublicMessage = PublicMessage(
    messageId: MessageId,
    streamId: string,
    sequence: Sequence,
    senderActorId: string,
    target: Target,
    createdAt: int,
    sentAtClient: Option<int>,
    body: Body)

  function TypeName(t: Target): string {
    match t
    case Channel(_) => "channel"
    case Dm(_) => "dm"
    case Thread(_) => "thread"
  }

  function TargetId(t: Target): string {
    match t
    case Channel(id) => id
    case Dm(id) => id
    case Thread(id) => id.text
  }

  function CanonicalStreamId(t: Target): string {
    TypeName(t) + ":" + TargetId(t)
  }

  /** Two targets never share a stream, whatever characters their ids contain. */
  lemma CanonicalStreamIdIsInjective(a: Target, b: Target)
    requires CanonicalStreamId(a) == CanonicalStreamId(b)
    ensures a == b
  {
    var s := CanonicalStreamId(a);
    assert s[0] == TypeName(a)[0] == TypeName(b)[0];
    assert TypeName(a) == TypeName(b);
    assert s[|TypeName(a)| + 1..] == TargetId(a);
    assert s[|TypeName(b)| + 1..] == TargetId(b);
  }

  /** How far a message has gone through its life: plain, edited at a time, deleted. */
  datatype Rank = Plain | Edited(at: int) | Deleted {
    predicate AtMost(other: Rank) {
      match this
      case Plain => true
      case Edited(t) => other.Deleted? || (other.Edited? && t <= other.at)
      case Deleted => other.Deleted?
    }
  }

  function RankOf(m: PublicMessage): Rank {
    match m.body
    case Tombstone(_) => Deleted
    case Text(_, None) => Plain
    case Text(_, Some(t)) => Edited(t)
  }

  function MaxRank(a: Rank, b: Rank): Rank {
    if a.AtMost(b) then b else a
  }
}
