/** What waits behind a gap, and exactly how far arrivals and pages move the cursor. */
module GapBuffer {
  import opened Messages
  import opened Contracts
  import opened TimelineSpec
  import opened TimelineRuns
  import opened TimelineCoverage

  /** What is left of a buffer beyond a place. */
  ghost predicate Above(buffered: set<Sequence>, rest: set<Sequence>, c: Sequence) {
    forall b :: b in rest <==> b in buffered && c < b
  }

  /** From `c` to `d` the buffer has no gap, after `d` it has one, and what is left lies beyond. */
  ghost predicate DrainedTo(buffered: set<Sequence>, c: Sequence, rest: set<Sequence>, d: Sequence) {
    && c <= d && d + 1 !in buffered
    && (forall k :: c < k <= d ==> k in buffered)
    && Above(buffered, rest, d)
  }

  lemma DrainedOneMore(buffered: set<Sequence>, c: Sequence, rest: set<Sequence>, d: Sequence)
    requires c + 1 in buffered && DrainedTo(buffered - {c + 1}, c + 1, rest, d)
    ensures DrainedTo(buffered, c, rest, d)
  {
    var shorter := buffered - {c + 1};
    forall k | c < k <= d ensures k in buffered {
      assert k > c + 1 ==> k in shorter;
    }
  }

  /** Draining moves the cursor through the unbroken run of buffered messages after it, and no further. */
  lemma {:induction false} DrainStopsAtGap(v: View)
    requires Valid(v) && v.cursor.Some?
    ensures Drain(v).cursor.Some? && DrainedTo(v.buffered, v.cursor.value, Drain(v).buffered, Drain(v).cursor.value)
    decreases |v.buffered|
  {
    if v.cursor.value + 1 in v.buffered {
      var next := v.cursor.value + 1;
      AdvanceProgress(v, v.records[next]);
      assert v.buffered == v.buffered - {next} + {next};
      DrainStopsAtGap(Advance(v, v.records[next]));
      DrainedOneMore(v.buffered, v.cursor.value, Drain(v).buffered, Drain(v).cursor.value);
    }
  }

  // --- Pages ---

  lemma InsertAllKeepsWaiting(v: View, ms: seq<PublicMessage>, c: Sequence)
    requires forall i :: 0 <= i < |ms| ==> ms[i].sequence <= c
    ensures forall b :: c < b ==> (b in InsertAll(v, ms).view.buffered <==> b in v.buffered)
    decreases |ms|
  {
    if ms != [] && Check(v, ms[0]) == Ok {
      InsertAllKeepsWaiting(InsertHistory(v, ms[0]).view, ms[1..], c);
    }
  }

  lemma JumpLeavesAbove(v: View, ms: seq<PublicMessage>, c: Sequence)
    requires Valid(v) && forall i :: 0 <= i < |ms| ==> ms[i].sequence <= c
    ensures var w := Jump(InsertAll(v, ms).view, c); Valid(w) && w.cursor == Some(c) && Above(v.buffered, w.buffered, c)
  {
    InsertAllProgress(v, ms);
    InsertAllKeepsWaiting(v, ms, c);
    JumpProgress(InsertAll(v, ms).view, c);
  }

  /** What a page that fits does to the buffer and the cursor. */
  lemma PageMovesTo(v: View, r: SyncResponse)
    requires Valid(v) && SyncContract(r) && ApplySync(v, r).outcome == Ok
    ensures var w := ApplySync(v, r).view;
            && w.cursor.Some?
            && (r.hasMoreAfter ==>
                  w.cursor.value == r.nextAfterSequence && Above(v.buffered, w.buffered, r.nextAfterSequence))
            && (!r.hasMoreAfter ==> exists waiting ::
                  && Above(v.buffered, waiting, r.nextAfterSequence)
                  && DrainedTo(waiting, r.nextAfterSequence, w.buffered, w.cursor.value))
  {
    var jumped := Jump(InsertAll(v, r.messages).view, r.nextAfterSequence);
    JumpLeavesAbove(v, r.messages, r.nextAfterSequence);
    DrainStopsAtGap(jumped);
    assert Above(v.buffered, jumped.buffered, r.nextAfterSequence);
  }

  /** A message waits beyond a place, but an earlier one is missing. */
  ghost predicate GapBeyond(buffered: set<Sequence>, T: Sequence) {
    exists k, b :: T < k < b && b in buffered && k !in buffered
  }

  /** After a final page something is left waiting exactly if there was a gap beyond it. */
  lemma GapIsLeft(before: set<Sequence>, waiting: set<Sequence>, rest: set<Sequence>, T: Sequence, c: Sequence)
    requires Above(before, waiting, T) && DrainedTo(waiting, T, rest, c)
    ensures rest != {} <==> GapBeyond(before, T)
  {
    assert (forall b :: b !in rest) ==> rest == {};
    if b :| b in rest {
      assert T < c + 1 < b && b in before && c + 1 !in before;
    } else {
      assert forall b :: b in before && T < b ==> b in waiting && b <= c;
      assert forall k :: T < k <= c ==> k in waiting && k in before;
      assert !GapBeyond(before, T);
    }
  }

  // --- Arrivals ---

  /** The messages among the arrivals that may move the cursor. */
  function ArrivedIn(input: Input): set<Sequence> {
    match input
    case Live(m) => {m.sequence}
    case Accepted(m) => {m.sequence}
    case _ => {}
  }

  function Arrived(inputs: seq<Input>): set<Sequence>
    decreases |inputs|
  {
    if inputs == [] then {} else ArrivedIn(inputs[0]) + Arrived(inputs[1..])
  }

  /**
   * Arrivals move the cursor only if the message right after it is among them, and then to the end
   * of the unbroken run of what was buffered or arrived; everything beyond waits.
   */
  ghost predicate MovedTo(c: Sequence, buffered: set<Sequence>, arrived: set<Sequence>, rest: set<Sequence>,
                          d: Sequence)
  {
    if c + 1 in arrived then DrainedTo(buffered + arrived, c, rest, d) else d == c && Above(buffered + arrived, rest, c)
  }

  lemma MovedByNext(c: Sequence, buffered: set<Sequence>, rest: set<Sequence>, d: Sequence)
    requires DrainedTo(buffered - {c + 1}, c + 1, rest, d)
    ensures MovedTo(c, buffered, {c + 1}, rest, d)
  {
    assert buffered + {c + 1} - {c + 1} == buffered - {c + 1};
    DrainedOneMore(buffered + {c + 1}, c, rest, d);
  }

  /** The first arrivals and then the others move the cursor as all of them do. */
  lemma MovedTwice(c: Sequence, buffered: set<Sequence>, a: set<Sequence>, rest: set<Sequence>, d: Sequence,
                   b: set<Sequence>, finalRest: set<Sequence>, e: Sequence)
    requires MovedTo(c, buffered, a, rest, d) && MovedTo(d, rest, b, finalRest, e)
    ensures MovedTo(c, buffered, a + b, finalRest, e)
  {
    var first, second, all := buffered + a, rest + b, buffered + (a + b);
    assert forall k :: d < k ==> (k in all <==> k in second);
    assert Above(all, finalRest, e);
    forall k | c < k <= d ensures c + 1 in a ==> k in all {
      assert c + 1 in a ==> k in first;
    }
    forall k | d < k <= e ensures k in all {
      assert k in second;
    }
  }

  /** The run of buffered and arrived messages goes on past a place. */
  ghost predicate Passes(c: Sequence, buffered: set<Sequence>, arrived: set<Sequence>, T: Sequence) {
    c + 1 in arrived && forall k :: c < k <= T + 1 ==> k in buffered + arrived
  }

  lemma PassesExactly(c: Sequence, buffered: set<Sequence>, arrived: set<Sequence>, rest: set<Sequence>, d: Sequence,
                      T: Sequence)
    requires MovedTo(c, buffered, arrived, rest, d) && c <= T
    ensures T < d <==> Passes(c, buffered, arrived, T)
  {
    var have := buffered + arrived;
    if T < d {
      assert forall k :: c < k <= d ==> k in have;
    }
    if Passes(c, buffered, arrived, T) {
      assert d <= T ==> d + 1 in have;
    }
  }

  /** Only what lies beyond the cursor matters. */
  lemma PassesAbove(c: Sequence, buffered: set<Sequence>, rest: set<Sequence>, b: Sequence, arrived: set<Sequence>,
                    T: Sequence)
    requires Above(buffered, rest, b) && b <= c
    ensures Passes(c, rest, arrived, T) <==> Passes(c, buffered, arrived, T)
  {
    var x, y := rest + arrived, buffered + arrived;
    assert forall k :: c < k ==> (k in x <==> k in y);
  }

  lemma DeliverMoves(v: View, m: PublicMessage)
    requires Valid(v) && NothingBeyondCursor(v) && Check(v, m) == Ok && v.cursor.Some?
    ensures var w := Deliver(v, m);
            w.cursor.Some? && MovedTo(v.cursor.value, v.buffered, {m.sequence}, w.buffered, w.cursor.value)
  {
    if m.sequence == v.cursor.value + 1 {
      AdvancedProgress(v, m);
      AdvanceProgress(v, m);
      DrainStopsAtGap(Advance(v, m));
      MovedByNext(v.cursor.value, v.buffered, Deliver(v, m).buffered, Deliver(v, m).cursor.value);
    }
  }

  lemma AcceptMoves(v: View, m: PublicMessage)
    requires Valid(v) && NothingBeyondCursor(v) && Check(v, m) == Ok && v.cursor.Some?
    ensures var w := ApplyAccepted(v, m).view;
            w.cursor.Some? && MovedTo(v.cursor.value, v.buffered, {m.sequence}, w.buffered, w.cursor.value)
  {
    NoteAcceptedKeepsIndexed(v, m);
    var record := NoteAccepted(v, m).records[m.sequence];
    if m.sequence == v.cursor.value + 1 {
      ShownAcceptProgress(v, m, record);
      assert Advance(NoteAccepted(v, m), record) == Advance(v, m);
      DeliverMoves(v, m);
    }
  }
}
