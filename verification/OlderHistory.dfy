/** Loading older history, page by page, until there is none left. */
module OlderHistory {
  import opened Messages
  import opened Contracts
  import opened TimelineSpec
  import opened TimelineRuns
  import opened TimelineCoverage

  predicate LeavesHistory(input: Input) {
    !input.Latest? && !input.Older?
  }

  lemma {:induction false} InsertAllKeepsHistory(v: View, ms: seq<PublicMessage>)
    ensures SameHistory(v, InsertAll(v, ms).view)
    decreases |ms|
  {
    if ms != [] {
      InsertAllKeepsHistory(InsertHistory(v, ms[0]).view, ms[1..]);
    }
  }

  lemma DeliverKeepsHistory(v: View, m: PublicMessage)
    requires Indexed(v) && Check(v, m) == Ok
    ensures SameHistory(v, Deliver(v, m))
  {
    if v.cursor.Some? && m.sequence == v.cursor.value + 1 {
      ShowKeepsIndexed(v, m);
      DrainMovesCursorOnly(Advance(v, m));
    }
  }

  lemma ApplyKeepsHistory(v: View, input: Input)
    requires Valid(v) && LeavesHistory(input)
    ensures SameHistory(v, Apply(v, input).view)
  {
    match input {
      case Sync(r) =>
        InsertAllKeepsHistory(v, r.messages);
        InsertAllKeepsIndexed(v, r.messages);
        JumpKeepsIndexed(InsertAll(v, r.messages).view, r.nextAfterSequence);
        DrainMovesCursorOnly(Jump(InsertAll(v, r.messages).view, r.nextAfterSequence));
      case Live(m) => if Check(v, m) == Ok { DeliverKeepsHistory(v, m); }
      case Accepted(m) =>
        if Check(v, m) == Ok {
          NoteAcceptedKeepsIndexed(v, m);
          DeliverKeepsHistory(NoteAccepted(v, m), NoteAccepted(v, m).records[m.sequence]);
        }
      case Replace(m) =>
    }
  }

  /** While an older request is under way, nothing else moves the lower end: the page still fits when it comes. */
  lemma {:induction false} OlderRequestStaysAsked(v: View, inputs: seq<Input>)
    requires Valid(v) && forall i :: 0 <= i < |inputs| ==> LeavesHistory(inputs[i])
    ensures SameHistory(v, Run(v, inputs))
    decreases |inputs|
  {
    if inputs != [] {
      ApplyKeeps(v, inputs[0]);
      ApplyKeepsHistory(v, inputs[0]);
      OlderRequestStaysAsked(Apply(v, inputs[0]).view, inputs[1..]);
    }
  }

  ghost predicate Fits(v: View, log: Log, r: OlderResponse) {
    && v.hasMoreBefore && v.historyBefore == Some(r.beforeSequence)
    && OlderContract(r) && r.streamId == v.streamId && AllHonest(v, log, r.messages)
  }

  /** Each page answers the request for what comes before the page just applied. */
  ghost predicate OlderChain(v: View, log: Log, pages: seq<OlderResponse>)
    decreases |pages|
  {
    pages == [] || (Fits(v, log, pages[0]) && OlderChain(ApplyOlder(v, pages[0]).view, log, pages[1..]))
  }

  function ApplyAllOlder(v: View, pages: seq<OlderResponse>): View
    decreases |pages|
  {
    if pages == [] then v else ApplyAllOlder(ApplyOlder(v, pages[0]).view, pages[1..])
  }

  /** Every older page lowers the lower end, so there are fewer of them than messages before it. */
  lemma {:induction false} OlderPagesRunOut(v: View, log: Log, restored: Option<Sequence>, pages: seq<OlderResponse>)
    requires Tracks(v, log, restored) && OlderChain(v, log, pages) && v.historyBefore.Some?
    ensures var w := ApplyAllOlder(v, pages);
            && Tracks(w, log, restored) && w.cursor == v.cursor && w.historyBefore.Some?
            && 1 <= w.historyBefore.value <= v.historyBefore.value - |pages|
            && (w.hasMoreBefore <==> w.historyBefore.value > 1)
    decreases |pages|
  {
    if pages != [] {
      OlderTracks(v, log, restored, pages[0]);
      OlderPagesRunOut(ApplyOlder(v, pages[0]).view, log, restored, pages[1..]);
    }
  }

  /** When no older history is left, the sequences on display are exactly those from 1 to the cursor. */
  lemma NothingOlderIsLeft(v: View, log: Log)
    requires Tracks(v, log, None) && v.cursor.Some? && !v.hasMoreBefore
    ensures forall s :: s in v.visible <==> 1 <= s <= v.cursor.value
  {
    forall s | s in v.visible ensures 1 <= s <= v.cursor.value {
      assert Logged(log, v.records[s]);
    }
    assert Low(v, None) == 1;
  }
}
