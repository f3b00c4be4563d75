/** Store, pages, wire and one client's timeline together: every interleaving, from the first message on. */
module EndToEnd {
  import opened Messages
  import opened Contracts
  import opened MessageStore
  import Store = StoreInvariants
  import Sends = SendRuns
  import Recovery = RecoveryRuns
  import opened PagePolicy
  import opened PagePipeline
  import opened StreamLog
  import opened TimelineSpec
  import opened TimelineRuns
  import opened TimelineCoverage
  import opened TimelineArrivals

  /**
   * The wire holds messages and pages from the time they are sent. They may arrive late, in any
   * order, several times or never. `restored` is the cursor that the timeline was restored from.
   */
  datatype World = World(
    target: ClientTarget,
    restored: Option<Sequence>,
    sys: Sends.System,
    sent: set<PublicMessage>,
    latest: set<LatestResponse>,
    older: set<OlderResponse>,
    sync: set<SyncResponse>,
    view: View)

  datatype Happening =
    | Transact(event: Sends.Event)
    | Publish(message: PublicMessage)
    | ServesLatest(allowed: bool, measureLatest: LatestResponse -> Measurement)
    | ServesOlder(allowed: bool, before: Sequence, limit: int, measureOlder: OlderResponse -> Measurement)
    | ServesSync(allowed: bool, after: Sequence, through: Option<Sequence>, limit: int,
                 measureSync: SyncResponse -> Measurement)
    | Arrives(input: Input)

  ghost function Start(target: ClientTarget, restored: Option<Sequence>): World {
    World(target, restored, Sends.START, {}, {}, {}, {}, Fresh(target).(cursor := restored))
  }

  /** Any version of a stored message may be sent: as created, as edited, as deleted, or out of date. */
  ghost predicate IsVersion(db: Db, m: PublicMessage) {
    && m.messageId in db.messages
    && db.messages[m.messageId].target == m.target && db.messages[m.messageId].sequence == m.sequence
    && m.streamId == CanonicalStreamId(m.target)
  }

  /**
   * The latest page is applied only while there is no cursor, and an older page only when it answers
   * the request that the lower end asks for. Sync pages may arrive when they no longer fit.
   */
  ghost predicate MayArrive(w: World, input: Input) {
    match input
    case Latest(r) => r in w.latest && w.view.cursor.None?
    case Older(r) => r in w.older && w.view.hasMoreBefore && w.view.historyBefore == Some(r.beforeSequence)
    case Sync(r) => r in w.sync
    case Live(m) => m in w.sent && m.target == w.target
    case Accepted(m) => m in w.sent && m.target == w.target
    case Replace(m) => m in w.sent && m.target == w.target
  }

  ghost function Next(w: World, h: Happening): World
    requires Valid(w.view)
  {
    match h
    case Transact(e) => w.(sys := Sends.Step(w.sys, e))
    case Publish(m) => if IsVersion(w.sys.db, m) then w.(sent := w.sent + {m}) else w
    case ServesLatest(allowed, measure) => (
      match ServeLatest(w.sys.db, w.target, allowed, measure)
      case ServedPage(r) => w.(latest := w.latest + {r})
      case _ => w)
    case ServesOlder(allowed, before, limit, measure) => (
      match ServeOlder(w.sys.db, w.target, allowed, before, limit, measure)
      case ServedPage(r) => w.(older := w.older + {r})
      case _ => w)
    case ServesSync(allowed, after, through, limit, measure) => (
      match ServeSync(w.sys.db, w.target, allowed, after, through, limit, measure)
      case ServedPage(r) => w.(sync := w.sync + {r})
      case _ => w)
    case Arrives(input) => if MayArrive(w, input) then w.(view := Apply(w.view, input).view) else w
  }

  // --- The invariant ---

  ghost predicate AllSentHonest(db: Db, sent: set<PublicMessage>)
    requires Store.Dense(db)
  {
    forall m :: m in sent ==> HonestTo(m.target, LogOf(db, m.target), m)
  }

  ghost predicate HonestLatest(t: Target, log: Log, r: LatestResponse) {
    LatestContract(r) && r.streamId == CanonicalStreamId(t) && AllHonestTo(t, log, r.messages)
  }

  ghost predicate HonestOlder(t: Target, log: Log, r: OlderResponse) {
    OlderContract(r) && r.streamId == CanonicalStreamId(t) && AllHonestTo(t, log, r.messages)
  }

  ghost predicate HonestSync(t: Target, log: Log, r: SyncResponse) {
    SyncContract(r) && r.streamId == CanonicalStreamId(t) && AllHonestTo(t, log, r.messages)
  }

  ghost predicate PagesHonest(t: Target, log: Log, latest: set<LatestResponse>, older: set<OlderResponse>,
                              sync: set<SyncResponse>)
  {
    && (forall r :: r in latest ==> HonestLatest(t, log, r))
    && (forall r :: r in older ==> HonestOlder(t, log, r))
    && (forall r :: r in sync ==> HonestSync(t, log, r))
  }

  ghost predicate Sound(w: World) {
    && Sends.Good(w.sys)
    && AllSentHonest(w.sys.db, w.sent)
    && PagesHonest(w.target, LogOf(w.sys.db, w.target), w.latest, w.older, w.sync)
    && ViewOf(w.view, w.target)
    && Tracks(w.view, LogOf(w.sys.db, w.target), w.restored)
  }

  // --- Server steps ---

  lemma PagesHonestGrow(t: Target, log: Log, longer: Log, w: World)
    requires log <= longer && PagesHonest(t, log, w.latest, w.older, w.sync)
    ensures PagesHonest(t, longer, w.latest, w.older, w.sync)
  {
    forall r | r in w.latest ensures HonestLatest(t, longer, r) { HonestStaysHonest(t, log, longer, r.messages); }
    forall r | r in w.older ensures HonestOlder(t, longer, r) { HonestStaysHonest(t, log, longer, r.messages); }
    forall r | r in w.sync ensures HonestSync(t, longer, r) { HonestStaysHonest(t, log, longer, r.messages); }
  }

  lemma SentHonestGrows(db: Db, later: Db, sent: set<PublicMessage>)
    requires Store.Dense(db) && Store.Dense(later) && Store.Grows(db, later) && AllSentHonest(db, sent)
    ensures AllSentHonest(later, sent)
  {
    forall m | m in sent ensures HonestTo(m.target, LogOf(later, m.target), m) {
      LogGrows(db, later, m.target);
    }
  }

  lemma TransactKeeps(w: World, e: Sends.Event)
    requires Sound(w)
    ensures Sound(Next(w, Transact(e)))
  {
    var db, later := w.sys.db, Sends.Step(w.sys, e).db;
    Sends.StepKeeps(w.sys, e);
    LogGrows(db, later, w.target);
    LogIsDistinct(later, w.target);
    SentHonestGrows(db, later, w.sent);
    PagesHonestGrow(w.target, LogOf(db, w.target), LogOf(later, w.target), w);
    TracksLongerLog(w.view, LogOf(db, w.target), LogOf(later, w.target), w.restored);
  }

  lemma VersionIsHonest(db: Db, m: PublicMessage)
    requires Store.Dense(db) && IsVersion(db, m)
    ensures HonestTo(m.target, LogOf(db, m.target), m)
  {
    LogHolds(db, m.target, m.messageId);
  }

  lemma ServesKeeps(w: World, h: Happening)
    requires Sound(w) && (h.ServesLatest? || h.ServesOlder? || h.ServesSync?)
    ensures Sound(Next(w, h))
  {
    var db := w.sys.db;
    match h {
      case ServesLatest(allowed, measure) =>
        LatestServed(db, w.target, allowed, measure);
        var s := ServeLatest(db, w.target, allowed, measure);
        if s.ServedPage? {
          PageIsHonest(db, w.target, s.response.messages);
        }
      case ServesOlder(allowed, before, limit, measure) =>
        OlderServed(db, w.target, allowed, before, limit, measure);
        var s := ServeOlder(db, w.target, allowed, before, limit, measure);
        if s.ServedPage? {
          PageIsHonest(db, w.target, s.response.messages);
        }
      case ServesSync(allowed, after, through, limit, measure) =>
        SyncServed(db, w.target, allowed, after, through, limit, measure);
        var s := ServeSync(db, w.target, allowed, after, through, limit, measure);
        if s.ServedPage? {
          PageIsHonest(db, w.target, s.response.messages);
        }
    }
  }

  /** What the store answers is what recovery relies on: pages of the log, from the cursor, under the watermark. */
  lemma ServedPagesAreHonest(db: Db, t: Target, allowed: bool, after: Sequence, through: Option<Sequence>, limit: int,
                             measure: SyncResponse -> Measurement)
    requires Store.Valid(db)
    ensures var s := ServeSync(db, t, allowed, after, through, limit, measure);
            s.ServedPage? ==> Recovery.HonestPage(t, LogOf(db, t), s.response, after, through)
  {
    SyncServed(db, t, allowed, after, through, limit, measure);
    var s := ServeSync(db, t, allowed, after, through, limit, measure);
    if s.ServedPage? {
      PageIsHonest(db, t, s.response.messages);
    }
  }

  // --- Client steps ---

  /** The only protocol error there is, and it changes nothing: a sync page that no longer fits. */
  ghost predicate Harmless(v: View, input: Input, s: Step) {
    || s.outcome == Ok
    || (input.Sync? && s == Step(v, Thrown(SyncCursorMismatch)) && v.cursor != Some(input.sync.afterSequence))
  }

  ghost predicate GoodStep(v: View, input: Input, s: Step, log: Log, restored: Option<Sequence>) {
    Tracks(s.view, log, restored) && CursorGrows(v, s.view) && ViewOf(s.view, v.target) && Harmless(v, input, s)
  }

  lemma PageArrives(w: World, input: Input)
    requires Sound(w) && MayArrive(w, input) && (input.Latest? || input.Older? || input.Sync?)
    ensures GoodStep(w.view, input, Apply(w.view, input), LogOf(w.sys.db, w.target), w.restored)
  {
    var log := LogOf(w.sys.db, w.target);
    ApplyKeeps(w.view, input);
    match input {
      case Latest(r) => LatestTracks(w.view, log, r);
      case Older(r) => OlderTracks(w.view, log, w.restored, r);
      case Sync(r) => SyncTracks(w.view, log, w.restored, r);
    }
  }

  lemma MessageArrives(w: World, input: Input)
    requires Sound(w) && MayArrive(w, input) && (input.Live? || input.Accepted? || input.Replace?)
    ensures GoodStep(w.view, input, Apply(w.view, input), LogOf(w.sys.db, w.target), w.restored)
  {
    var log := LogOf(w.sys.db, w.target);
    ApplyKeeps(w.view, input);
    match input {
      case Live(m) => LiveTracks(w.view, log, w.restored, m);
      case Accepted(m) => AcceptedTracks(w.view, log, w.restored, m);
      case Replace(m) => ReplaceTracks(w.view, log, w.restored, m);
    }
  }

  /** Whatever arrives, whenever it arrives: it keeps the promise, and is refused only if it no longer fits. */
  lemma ArrivalIsGood(w: World, input: Input)
    requires Sound(w) && MayArrive(w, input)
    ensures GoodStep(w.view, input, Apply(w.view, input), LogOf(w.sys.db, w.target), w.restored)
  {
    if input.Live? || input.Accepted? || input.Replace? {
      MessageArrives(w, input);
    } else {
      PageArrives(w, input);
    }
  }

  // --- Whole runs ---

  lemma NextKeeps(w: World, h: Happening)
    requires Sound(w)
    ensures Sound(Next(w, h)) && CursorGrows(w.view, Next(w, h).view)
  {
    match h {
      case Transact(e) => TransactKeeps(w, e);
      case Publish(m) => if IsVersion(w.sys.db, m) { VersionIsHonest(w.sys.db, m); }
      case Arrives(input) => if MayArrive(w, input) { ArrivalIsGood(w, input); }
      case _ => ServesKeeps(w, h);
    }
  }

  ghost function Run(w: World, hs: seq<Happening>): World
    requires Sound(w)
    decreases |hs|
  {
    if hs == [] then w
    else
      NextKeeps(w, hs[0]);
      Run(Next(w, hs[0]), hs[1..])
  }

  /** Every run keeps everything sound, and the cursor never goes back. */
  lemma {:induction false} RunKeeps(w: World, hs: seq<Happening>)
    requires Sound(w)
    ensures Sound(Run(w, hs)) && CursorGrows(w.view, Run(w, hs).view)
    decreases |hs|
  {
    if hs != [] {
      NextKeeps(w, hs[0]);
      RunKeeps(Next(w, hs[0]), hs[1..]);
    }
  }

  /** What is stored is never taken back. */
  lemma {:induction false} RunGrows(w: World, hs: seq<Happening>)
    requires Sound(w)
    ensures Store.Grows(w.sys.db, Run(w, hs).sys.db)
    decreases |hs|
  {
    if hs == [] {
      Store.GrowsIsReflexive(w.sys.db);
    } else {
      NextKeeps(w, hs[0]);
      NextGrows(w, hs[0]);
      RunGrows(Next(w, hs[0]), hs[1..]);
      Store.GrowsIsTransitive(w.sys.db, Next(w, hs[0]).sys.db, Run(w, hs).sys.db);
    }
  }

  lemma NextGrows(w: World, h: Happening)
    requires Sound(w)
    ensures Store.Grows(w.sys.db, Next(w, h).sys.db)
  {
    if h.Transact? {
      Sends.StepKeeps(w.sys, h.event);
    } else {
      Store.GrowsIsReflexive(w.sys.db);
    }
  }

  lemma StartIsSound(target: ClientTarget, restored: Option<Sequence>)
    requires restored.Some? ==> restored.value >= 0
    ensures Sound(Start(target, restored))
  {
    Store.EmptyIsValid();
    LogIsDistinct(Sends.START.db, target);
    FreshTracks(target, LogOf(Sends.START.db, target), restored);
  }

  /** What a run leads to, from an empty store and a fresh or restored timeline. */
  ghost function Reached(target: ClientTarget, restored: Option<Sequence>, hs: seq<Happening>): World
    requires restored.Some? ==> restored.value >= 0
  {
    StartIsSound(target, restored);
    Run(Start(target, restored), hs)
  }

  /**
   * The displayed list ends with exactly the log from the lower end to the cursor; all of it, if
   * nothing older is left.
   */
  ghost predicate ShowsTheLog(ids: seq<MessageId>, v: View, log: Log, restored: Option<Sequence>)
    requires v.cursor.Some?
  {
    var c := v.cursor.value;
    var n := c + 1 - Low(v, restored);
    && 0 <= n <= |ids|
    && (forall i :: |ids| - n <= i < |ids| ==> LogHas(log, c + 1 - |ids| + i, ids[i]))
    && (restored.None? && !v.hasMoreBefore ==> 0 <= c <= |log| && ids == log[..c])
  }

  lemma TrackingShowsTheLog(ids: seq<MessageId>, v: View, log: Log, restored: Option<Sequence>)
    requires Tracks(v, log, restored) && Enumerates(ids, v) && v.cursor.Some?
    ensures ShowsTheLog(ids, v, log, restored)
  {
    DisplayedListEndsWithLog(ids, v, log, restored);
    if restored.None? && !v.hasMoreBefore {
      DisplayedListIsTheLog(ids, v, log);
    }
  }

  /**
   * In every run from the empty store, the displayed list ends with exactly the stream's messages
   * from its lower end to its cursor: each once, in order, under the ids of the store.
   */
  lemma EveryRunShowsTheLog(target: ClientTarget, restored: Option<Sequence>, hs: seq<Happening>, ids: seq<MessageId>)
    requires restored.Some? ==> restored.value >= 0
    requires Enumerates(ids, Reached(target, restored, hs).view) && Reached(target, restored, hs).view.cursor.Some?
    ensures var w := Reached(target, restored, hs);
            Store.Dense(w.sys.db) && ShowsTheLog(ids, w.view, LogOf(w.sys.db, target), restored)
  {
    StartIsSound(target, restored);
    RunKeeps(Start(target, restored), hs);
    RunKeepsConstants(Start(target, restored), hs);
    var w := Reached(target, restored, hs);
    TrackingShowsTheLog(ids, w.view, LogOf(w.sys.db, target), restored);
  }

  lemma {:induction false} RunKeepsConstants(w: World, hs: seq<Happening>)
    requires Sound(w)
    ensures Run(w, hs).target == w.target && Run(w, hs).restored == w.restored
    decreases |hs|
  {
    if hs != [] {
      NextKeeps(w, hs[0]);
      RunKeepsConstants(Next(w, hs[0]), hs[1..]);
    }
  }

  // --- What is displayed was said ---

  /** The message has been on the wire: sent by itself, or in a page. */
  ghost predicate WasSent(w: World, m: PublicMessage) {
    || m in w.sent
    || (exists r :: r in w.latest && m in r.messages)
    || (exists r :: r in w.older && m in r.messages)
    || (exists r :: r in w.sync && m in r.messages)
  }

  ghost predicate KnowsWhatWasSent(w: World) {
    forall s :: s in w.view.records ==> WasSent(w, w.view.records[s])
  }

  lemma ArrivalWasSent(w: World, input: Input, m: PublicMessage)
    requires MayArrive(w, input) && m in MessagesOf(input)
    ensures WasSent(w, m)
  {
  }

  lemma NextKeepsWhatWasSent(w: World, h: Happening)
    requires Sound(w) && KnowsWhatWasSent(w)
    ensures KnowsWhatWasSent(Next(w, h))
  {
    var next := Next(w, h);
    forall s | s in next.view.records ensures WasSent(next, next.view.records[s]) {
      if h.Arrives? && MayArrive(w, h.input) {
        InputIsLearnt(w.view, h.input);
        if next.view.records[s] in MessagesOf(h.input) {
          ArrivalWasSent(w, h.input, next.view.records[s]);
        }
      } else {
        assert WasSent(w, w.view.records[s]);
      }
    }
  }

  lemma {:induction false} RunKeepsWhatWasSent(w: World, hs: seq<Happening>)
    requires Sound(w) && KnowsWhatWasSent(w)
    ensures KnowsWhatWasSent(Run(w, hs))
    decreases |hs|
  {
    if hs != [] {
      NextKeeps(w, hs[0]);
      NextKeepsWhatWasSent(w, hs[0]);
      RunKeepsWhatWasSent(Next(w, hs[0]), hs[1..]);
    }
  }

  /** In every run, whatever a client knows of a message has been on the wire in just that form. */
  lemma EveryRecordWasSent(target: ClientTarget, restored: Option<Sequence>, hs: seq<Happening>)
    requires restored.Some? ==> restored.value >= 0
    ensures KnowsWhatWasSent(Reached(target, restored, hs))
  {
    StartIsSound(target, restored);
    RunKeepsWhatWasSent(Start(target, restored), hs);
  }
}
